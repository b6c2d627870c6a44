/** The state the home page keeps and the handlers that change it: the session gate
    run on mount, the load and persistence effects for the domain list, the add,
    edit and delete handlers, logout and the password change. */
module HomePage {
  import opened Wrappers
  import opened Domains
  import opened BrowserStorage
  import opened DomainList

  /** `UserCredentials` as the page holds them after the gate: the username exactly as
      parsed (the gate only checks that it is truthy) and the password string. */
  datatype User = User(username: Prop, password: string)

  /** Credentials the gate accepts: a truthy username and a non-empty string password. */
  predicate UsableCredentials(v: CredJson) {
    v.Object? && v.username.IsTruthy() && v.password.Str? && v.password.s != ""
  }

  datatype GateResult = GateResult(store: StoreState, user: Option<User>)

  /** The session check of the mount effect: what it leaves in the store and the user it
      signs in (`None`: it redirects to the login page). */
  function SessionGate(s: StoreState): (r: GateResult)
    ensures r.user.Some? <==>
      s.sessionActive == Some("true") && s.userCredentials.Some? &&
      s.userCredentials.value.Parsed? && UsableCredentials(s.userCredentials.value.value)
    ensures r.user.Some? ==>
      r.store == s && r.user.value.username == s.userCredentials.value.value.username &&
      r.user.value.password == s.userCredentials.value.value.password.s != ""
    ensures s.sessionActive != Some("true") ==> r.store == s
    ensures s.sessionActive == Some("true") && !Truthy(s.userCredentials) ==>
      r.store == s.(sessionActive := None)
    ensures s.sessionActive == Some("true") && Truthy(s.userCredentials) && r.user.None? ==>
      r.store == s.(userCredentials := None, sessionActive := None)
  {
    if s.sessionActive == Some("true") then
      if Truthy(s.userCredentials) then
        var stored := s.userCredentials.value;
        if stored.Parsed? && UsableCredentials(stored.value) then
          GateResult(s, Some(User(stored.value.username, stored.value.password.s)))
        else GateResult(s.(userCredentials := None, sessionActive := None), None)
      else GateResult(s.(sessionActive := None), None)
    else GateResult(s, None)
  }

  /** After logout the gate turns the user away, and the credentials stay stored. */
  lemma GateAfterLogout(s: StoreState)
    ensures SessionGate(s.(sessionActive := Some("false"))).user == None
    ensures SessionGate(s.(sessionActive := Some("false"))).store.userCredentials == s.userCredentials
  {
  }

  /** `domains.find(d => d.id === id)` */
  function FindById(ds: seq<Domain>, id: string): (r: Option<Domain>)
    ensures r.Some? ==> r.value in ds && r.value.id == id
    ensures r.None? <==> forall d :: d in ds ==> d.id != id
    ensures r.Some? ==> exists i :: 0 <= i < |ds| && ds[i] == r.value && forall j :: 0 <= j < i ==> ds[j].id != id
    decreases |ds|
  {
    if ds == [] then None
    else if ds[0].id == id then Some(ds[0])
    else
      var r := FindById(ds[1..], id);
      assert r.Some? ==> exists i :: 0 <= i < |ds| && ds[i] == r.value && forall j :: 0 <= j < i ==> ds[j].id != id by {
        if r.Some? {
          var i :| 0 <= i < |ds[1..]| && ds[1..][i] == r.value && forall j :: 0 <= j < i ==> ds[1..][j].id != id;
          assert ds[i + 1] == r.value;
          assert forall j :: 0 <= j < i + 1 ==> ds[j].id != id by {
            forall j | 0 <= j < i + 1 ensures ds[j].id != id {
              if j > 0 { assert ds[j] == ds[1..][j - 1]; }
            }
          }
        }
      }
      assert (forall d :: d in ds[1..] ==> d.id != id) ==> forall d :: d in ds ==> d.id != id by {
        assert ds == [ds[0]] + ds[1..];
      }
      r
  }

  class HomePage {
    var domains: seq<Domain>
    var currentUser: Option<User>
    var editingDomain: Option<Domain>
    var isLoadingAuth: bool
    var addEditDialogOpen: bool

    constructor ()
      ensures domains == [] && currentUser == None && editingDomain == None && isLoadingAuth
      ensures !addEditDialogOpen
    {
      domains, currentUser, editingDomain, isLoadingAuth := [], None, None, true;
      addEditDialogOpen := false;
    }

    /** The mount effect's session check. Returns whether it sends the user to the
        login page. */
    method CheckSession(ls: LocalStorage) returns (redirectToLogin: bool)
      modifies this`currentUser, this`isLoadingAuth, ls
      ensures ls.State() == SessionGate(old(ls.State())).store
      ensures currentUser == if SessionGate(old(ls.State())).user.Some? then SessionGate(old(ls.State())).user else old(currentUser)
      ensures redirectToLogin <==> SessionGate(old(ls.State())).user.None?
      ensures !isLoadingAuth
    {
      redirectToLogin := true;
      if ls.sessionActive == Some("true") {
        if Truthy(ls.userCredentials) {
          var stored := ls.userCredentials.value;
          if stored.Parsed? && UsableCredentials(stored.value) {
            currentUser := Some(User(stored.value.username, stored.value.password.s));
            redirectToLogin := false;
          } else {
            ls.userCredentials := None;
            ls.sessionActive := None;
          }
        } else {
          ls.sessionActive := None;
        }
      }
      isLoadingAuth := false;
    }

    /** The effect that reads `domains` back from the store once the gate has run;
        `uuid(i)` stands for the `crypto.randomUUID()` drawn for the i-th record. */
    method LoadStoredDomains(ls: LocalStorage, uuid: nat -> string)
      modifies this`domains, ls`domains
      ensures old(isLoadingAuth) || !Truthy(old(ls.domains)) ==> domains == old(domains) && ls.domains == old(ls.domains)
      ensures !old(isLoadingAuth) && old(ls.domains) == Some(Unparsable) ==> domains == old(domains) && ls.domains == None
      ensures !old(isLoadingAuth) && old(ls.domains).Some? && old(ls.domains).value.Parsed? ==>
        domains == NormaliseAll(old(ls.domains).value.value, uuid) && ls.domains == old(ls.domains)
    {
      if isLoadingAuth {
        return;
      }
      if Truthy(ls.domains) {
        if ls.domains.value.Parsed? {
          domains := NormaliseAll(ls.domains.value.value, uuid);
        } else {
          ls.domains := None;
        }
      }
    }

    /** The effect that writes the list back whenever it changes (and something is
        there to write or to overwrite). */
    method PersistDomains(ls: LocalStorage)
      modifies ls`domains
      ensures !isLoadingAuth && (|domains| > 0 || Truthy(old(ls.domains))) ==> ls.domains == Some(Parsed(SerialiseAll(domains)))
      ensures isLoadingAuth || (|domains| == 0 && !Truthy(old(ls.domains))) ==> ls.domains == old(ls.domains)
    {
      if isLoadingAuth {
        return;
      }
      if |domains| > 0 || Truthy(ls.domains) {
        ls.domains := Some(Parsed(SerialiseAll(domains)));
      }
    }

    /** `handleLogout`: marks the session inactive and keeps the credentials. */
    method Logout(ls: LocalStorage)
      modifies this`currentUser, ls`sessionActive
      ensures ls.sessionActive == Some("false") && currentUser == None
      ensures ls.userCredentials == old(ls.userCredentials) && ls.domains == old(ls.domains)
    {
      ls.sessionActive := Some("false");
      currentUser := None;
    }

    /** `handleAddDomain`: appends one record with a fresh id and `dateAdded` = now. */
    method AddDomain(data: DomainFormData, uuid: string, now: int)
      modifies this`domains, this`addEditDialogOpen
      ensures domains == old(domains) + [NewDomain(data, uuid, now)]
      ensures !addEditDialogOpen
    {
      domains := domains + [NewDomain(data, uuid, now)];
      addEditDialogOpen := false;
    }

    method OpenAddDialog()
      modifies this`editingDomain, this`addEditDialogOpen
      ensures editingDomain == None && addEditDialogOpen
    {
      editingDomain := None;
      addEditDialogOpen := true;
    }

    method OpenEditDialog(d: Domain)
      modifies this`editingDomain, this`addEditDialogOpen
      ensures editingDomain == Some(d) && addEditDialogOpen
    {
      editingDomain := Some(d);
      addEditDialogOpen := true;
    }

    /** `handleEditDomain`: without a record being edited nothing happens; otherwise
        every entry with the edited id is replaced and the dialog forgets the record. */
    method EditDomain(data: DomainFormData)
      modifies this`domains, this`editingDomain, this`addEditDialogOpen
      ensures old(editingDomain).None? ==>
        domains == old(domains) && editingDomain == None && addEditDialogOpen == old(addEditDialogOpen)
      ensures old(editingDomain).Some? ==>
        domains == ReplaceById(old(domains), old(editingDomain).value, data) && editingDomain == None &&
        !addEditDialogOpen
    {
      if editingDomain.None? {
        return;
      }
      domains := ReplaceById(domains, editingDomain.value, data);
      addEditDialogOpen := false;
      editingDomain := None;
    }

    /** `handleDeleteDomain`: removes every entry with the id; returns the name shown
        in the toast, if a record with that id was there. */
    method DeleteDomain(id: string) returns (toastName: Option<string>)
      modifies this`domains
      ensures domains == RemoveById(old(domains), id)
      ensures toastName.Some? <==> exists d :: d in old(domains) && d.id == id
      ensures toastName.Some? ==> toastName.value == FindById(old(domains), id).value.name
    {
      var found := FindById(domains, id);
      domains := RemoveById(domains, id);
      toastName := if found.Some? then Some(found.value.name) else None;
    }

    /** `handlePasswordChange`: with a user signed in, stores the same username with the
        new password and returns true; otherwise changes nothing and returns false. */
    method HandlePasswordChange(ls: LocalStorage, newPassword: string) returns (ok: bool)
      modifies this`currentUser, ls`userCredentials
      ensures ok <==> old(currentUser).Some?
      ensures ok ==> ls.userCredentials == Some(Parsed(CredentialsJson(old(currentUser).value.username, newPassword)))
      ensures ok ==> currentUser == Some(User(old(currentUser).value.username, newPassword))
      ensures !ok ==> currentUser == old(currentUser) && ls.userCredentials == old(ls.userCredentials)
      ensures ls.sessionActive == old(ls.sessionActive) && ls.domains == old(ls.domains)
    {
      if currentUser.Some? {
        var username := currentUser.value.username;
        ls.userCredentials := Some(Parsed(CredentialsJson(username, newPassword)));
        currentUser := Some(User(username, newPassword));
        return true;
      }
      return false;
    }

    /** The list the page shows for a search term. */
    function Visible(searchTerm: string): (r: seq<Domain>)
      reads this
      ensures Sorted(r)
      ensures multiset(r) == multiset(Seqs.Filter(domains, MatchesSearch(searchTerm)))
      ensures forall k :: Seqs.Filter(r, TiesWith(k)) == Seqs.Filter(Seqs.Filter(domains, MatchesSearch(searchTerm)), TiesWith(k))
    {
      FilteredAndSorted(domains, searchTerm)
    }
  }
}
