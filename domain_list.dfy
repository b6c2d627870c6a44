/** The pure list logic of the home page: reading persisted records back into
    domains, writing them out, the list updates of the handlers, and the search
    filter with its four-key comparator. */
module DomainList {
  import opened Wrappers
  import opened Domains
  import opened BrowserStorage
  import opened Seqs
  import Text

  const UnnamedDomain: string := "Unnamed Domain"

  // ---------------------------------------------------------------- load / persist

  /** A persisted date field read back: `null`, `undefined`, `""` and anything
      `new Date` cannot parse become the invalid marker; note that `new Date(null)`
      is the epoch, so the `null` test matters. */
  function NormaliseDate(v: RawValue): (r: Option<int>)
    ensures v.kind in {JsonNull, JsonUndefined, EmptyString} ==> r == None
    ensures v.asDate.None? ==> r == None
    ensures v.kind == OtherValue ==> r == v.asDate
  {
    if v.kind == JsonNull || v.kind == JsonUndefined || v.kind == EmptyString || v.asDate.None? then None
    else v.asDate
  }

  /** A truthy string field, or `default` (`field || default`). */
  function OrDefault(field: Option<string>, default: string): (r: string)
    ensures field.Some? && field.value != "" ==> r == field.value
    ensures (field.None? || field.value == "") ==> r == default
  {
    if field.Some? && field.value != "" then field.value else default
  }

  /** One element of the stored array, as the load effect maps it; `uuid` is the value
      `crypto.randomUUID()` gives if the record has no usable id. */
  function Normalise(raw: RawDomain, uuid: string): (d: Domain)
    ensures d.id == OrDefault(raw.id, uuid) && d.name == OrDefault(raw.name, UnnamedDomain)
    ensures d.expirationDate == NormaliseDate(raw.expirationDate)
    ensures d.dateAdded == NormaliseDate(raw.dateAdded)
  {
    Domain(OrDefault(raw.id, uuid), OrDefault(raw.name, UnnamedDomain),
           NormaliseDate(raw.expirationDate), NormaliseDate(raw.dateAdded))
  }

  /** `JSON.parse(stored).map(...)`; the i-th record draws `uuid(i)` if it needs an id. */
  function NormaliseAll(raws: seq<RawDomain>, uuid: nat -> string): (ds: seq<Domain>)
    ensures |ds| == |raws|
    ensures forall i :: 0 <= i < |raws| ==> ds[i] == Normalise(raws[i], uuid(i))
  {
    seq(|raws|, i requires 0 <= i < |raws| => Normalise(raws[i], uuid(i)))
  }

  /** `JSON.stringify` of a date field: a valid date becomes its ISO text, which
      `new Date` parses back to the same instant; an Invalid Date becomes `null`. */
  function SerialiseDate(t: Option<int>): (r: RawValue)
    ensures NormaliseDate(r) == t
    ensures t.None? <==> r.kind == JsonNull
  {
    match t
    case Some(ms) => RawValue(OtherValue, Some(ms))
    case None => RawValue(JsonNull, Some(0))
  }

  /** One domain as `JSON.stringify` writes it; a domain with a non-empty id and
      name reads back as itself, whatever id is on offer. */
  function Serialise(d: Domain): (raw: RawDomain)
    ensures raw.id == Some(d.id) && raw.name == Some(d.name)
    ensures d.id != "" && d.name != "" ==> forall uuid :: Normalise(raw, uuid) == d
  {
    RawDomain(Some(d.id), Some(d.name), SerialiseDate(d.expirationDate), SerialiseDate(d.dateAdded))
  }

  /** `JSON.stringify(domains)`, as the persistence effect writes it. */
  function SerialiseAll(ds: seq<Domain>): (raws: seq<RawDomain>)
    ensures |raws| == |ds|
    ensures forall i :: 0 <= i < |ds| ==> raws[i] == Serialise(ds[i])
  {
    seq(|ds|, i requires 0 <= i < |ds| => Serialise(ds[i]))
  }

  /** Writing the list out and reading it back yields the same list, provided no
      id or name is empty (those are replaced on the way back). */
  lemma PersistRoundTrip(ds: seq<Domain>, uuid: nat -> string)
    requires forall i :: 0 <= i < |ds| ==> ds[i].id != "" && ds[i].name != ""
    ensures NormaliseAll(SerialiseAll(ds), uuid) == ds
  {
    var back := NormaliseAll(SerialiseAll(ds), uuid);
    forall i | 0 <= i < |ds| ensures back[i] == ds[i] {
      var d := ds[i];
      assert NormaliseDate(SerialiseDate(d.expirationDate)) == d.expirationDate;
      assert NormaliseDate(SerialiseDate(d.dateAdded)) == d.dateAdded;
    }
  }

  // ---------------------------------------------------------------- list updates

  /** The record `handleAddDomain` builds: `{ id: uuid, ...data, dateAdded: now }`. */
  function NewDomain(data: DomainFormData, uuid: string, now: int): (d: Domain)
    ensures d.id == uuid && d.dateAdded == Some(now)
    ensures d.name == data.name && d.expirationDate == Some(data.expirationDate)
  {
    Domain(uuid, data.name, Some(data.expirationDate), Some(now))
  }

  /** `{ ...editing, ...data }`: the edited record keeps the id and dateAdded of the
      record the dialog was opened on. */
  function Edited(editing: Domain, data: DomainFormData): (d: Domain)
    ensures d.id == editing.id && d.dateAdded == editing.dateAdded
    ensures d.name == data.name && d.expirationDate == Some(data.expirationDate)
  {
    editing.(name := data.name, expirationDate := Some(data.expirationDate))
  }

  /** `prev.map(d => d.id === editing.id ? { ...editing, ...data } : d)` */
  function ReplaceById(ds: seq<Domain>, editing: Domain, data: DomainFormData): (r: seq<Domain>)
    ensures |r| == |ds|
    ensures forall i :: 0 <= i < |ds| ==> r[i].id == ds[i].id
    ensures forall i :: 0 <= i < |ds| && ds[i].id != editing.id ==> r[i] == ds[i]
    ensures forall i :: 0 <= i < |ds| && ds[i].id == editing.id ==> r[i] == Edited(editing, data)
  {
    seq(|ds|, i requires 0 <= i < |ds| => if ds[i].id == editing.id then Edited(editing, data) else ds[i])
  }

  /** The filter test of `handleDeleteDomain`: `d.id !== id`. */
  function KeepsId(id: string): Domain -> bool {
    (d: Domain) => d.id != id
  }

  /** `prev.filter(d => d.id !== id)` */
  function RemoveById(ds: seq<Domain>, id: string): (r: seq<Domain>)
    ensures |r| <= |ds|
    ensures forall e :: e in r ==> e in ds && e.id != id
  {
    Filter(ds, KeepsId(id))
  }

  /** Delete removes every record with that id, keeps every occurrence of every other
      record, and keeps their relative order. */
  lemma RemoveByIdExact(ds: seq<Domain>, rest: seq<Domain>, id: string, d: Domain)
    ensures forall e :: e in RemoveById(ds, id) ==> e.id != id
    ensures d.id != id ==> multiset(RemoveById(ds, id))[d] == multiset(ds)[d]
    ensures RemoveById(ds + rest, id) == RemoveById(ds, id) + RemoveById(rest, id)
  {
    FilterCount(ds, KeepsId(id), d);
    FilterConcat(ds, rest, KeepsId(id));
  }

  // ---------------------------------------------------------------- search filter

  /** `domain.name.toLowerCase().includes(searchTerm.toLowerCase())` */
  function MatchesSearch(term: string): (p: Domain -> bool)
    ensures forall d :: p(d) <==> Text.Includes(Text.ToLower(d.name), Text.ToLower(term))
    ensures term == "" ==> forall d :: p(d)
  {
    (d: Domain) => Text.Includes(Text.ToLower(d.name), Text.ToLower(term))
  }

  /** The search keeps exactly the matching domains, each as often as it occurs, in
      their original relative order. */
  lemma SearchFilterExact(ds: seq<Domain>, rest: seq<Domain>, term: string, d: Domain)
    ensures multiset(Filter(ds, MatchesSearch(term)))[d]
         == if Text.Includes(Text.ToLower(d.name), Text.ToLower(term)) then multiset(ds)[d] else 0
    ensures Filter(ds + rest, MatchesSearch(term)) == Filter(ds, MatchesSearch(term)) + Filter(rest, MatchesSearch(term))
  {
    FilterCount(ds, MatchesSearch(term), d);
    FilterConcat(ds, rest, MatchesSearch(term));
  }

  /** An empty search term keeps every domain. */
  lemma EmptySearchKeepsAll(ds: seq<Domain>)
    ensures Filter(ds, MatchesSearch("")) == ds
  {
    forall i | 0 <= i < |ds| ensures MatchesSearch("")(ds[i]) {
      assert Text.OccursAt(Text.ToLower(ds[i].name), Text.ToLower(""), 0);
    }
    FilterAll(ds, MatchesSearch(""));
  }

  // ---------------------------------------------------------------- comparator

  /** The comparator passed to `sort`, with the same branches and return values: a
      negative result puts `a` first. Dates compare by their millisecond value. */
  function Compare(a: Domain, b: Domain): (r: int)
    ensures r == 0 <==> a.expirationDate == b.expirationDate && a.dateAdded == b.dateAdded
    ensures a.expirationDate == b.expirationDate && a.dateAdded.Some? && b.dateAdded.Some? ==>
              (r < 0 <==> a.dateAdded.value > b.dateAdded.value)
  {
    var aExpIsValid, bExpIsValid := a.expirationDate.Some?, b.expirationDate.Some?;
    if aExpIsValid && bExpIsValid && a.expirationDate.value != b.expirationDate.value then
      a.expirationDate.value - b.expirationDate.value
    else if aExpIsValid && !bExpIsValid then -1
    else if !aExpIsValid && bExpIsValid then 1
    else
      var aAddedIsValid, bAddedIsValid := a.dateAdded.Some?, b.dateAdded.Some?;
      if aAddedIsValid && bAddedIsValid then b.dateAdded.value - a.dateAdded.value
      else if aAddedIsValid && !bAddedIsValid then -1
      else if !aAddedIsValid && bAddedIsValid then 1
      else 0
  }

  /** A valid expiration sorts before an invalid one, whatever the other fields. */
  lemma ValidExpirationFirst(a: Domain, b: Domain)
    requires a.expirationDate.Some? && b.expirationDate.None?
    ensures Compare(a, b) < 0 && Compare(b, a) > 0
  {
  }

  /** Between two different valid expirations the earlier one sorts first. */
  lemma EarlierExpirationFirst(a: Domain, b: Domain)
    requires a.expirationDate.Some? && b.expirationDate.Some?
    requires a.expirationDate.value < b.expirationDate.value
    ensures Compare(a, b) < 0 && Compare(b, a) > 0
  {
  }

  /** On equal (or both invalid) expirations, a valid dateAdded comes first, and the
      more recently added of two valid ones comes first. */
  lemma DateAddedBreaksTies(a: Domain, b: Domain)
    requires a.expirationDate == b.expirationDate
    ensures a.dateAdded.Some? && b.dateAdded.None? ==> Compare(a, b) < 0
    ensures a.dateAdded.Some? && b.dateAdded.Some? && a.dateAdded.value > b.dateAdded.value ==> Compare(a, b) < 0
  {
  }

  /** The comparator is antisymmetric in sign... */
  lemma CompareAntisymmetric(a: Domain, b: Domain)
    ensures Compare(a, b) < 0 <==> Compare(b, a) > 0
    ensures Compare(a, b) == 0 <==> Compare(b, a) == 0
  {
  }

  /** ...and transitive, so "`Compare(a, b) <= 0`" is a total preorder. */
  lemma CompareTransitive(a: Domain, b: Domain, c: Domain)
    requires Compare(a, b) <= 0 && Compare(b, c) <= 0
    ensures Compare(a, c) <= 0
  {
  }

  // ---------------------------------------------------------------- sort

  /** Every element comes no later than the ones after it. */
  ghost predicate Sorted(s: seq<Domain>) {
    forall i, j :: 0 <= i < j < |s| ==> Compare(s[i], s[j]) <= 0
  }

  /** A sorted sequence stays sorted when an element that precedes all of it is put
      in front. */
  lemma SortedCons(a: Domain, s: seq<Domain>)
    requires Sorted(s)
    requires forall e :: e in s ==> Compare(a, e) <= 0
    ensures Sorted([a] + s)
  {
    var r := [a] + s;
    forall i, j | 0 <= i < j < |r| ensures Compare(r[i], r[j]) <= 0 {
      if i == 0 {
        assert r[j] == s[j - 1] && r[j] in s;
      } else {
        assert r[i] == s[i - 1] && r[j] == s[j - 1];
      }
    }
  }

  /** Insert `x` before the first element it does not follow. */
  function Insert(x: Domain, t: seq<Domain>): (r: seq<Domain>)
    ensures |r| == |t| + 1
    ensures r[0] == x || (t != [] && r[0] == t[0])
    decreases |t|
  {
    if t == [] then [x]
    else if Compare(x, t[0]) <= 0 then [x] + t
    else [t[0]] + Insert(x, t[1..])
  }

  lemma {:induction false} InsertPermutes(x: Domain, t: seq<Domain>)
    ensures multiset(Insert(x, t)) == multiset(t) + multiset{x}
    decreases |t|
  {
    if t != [] && Compare(x, t[0]) > 0 {
      InsertPermutes(x, t[1..]);
      assert t == [t[0]] + t[1..];
    }
  }

  lemma {:induction false} InsertSorted(x: Domain, t: seq<Domain>)
    requires Sorted(t)
    ensures Sorted(Insert(x, t))
    decreases |t|
  {
    if t == [] {
    } else if Compare(x, t[0]) <= 0 {
      forall e | e in t ensures Compare(x, e) <= 0 {
        var j :| 0 <= j < |t| && t[j] == e;
        if j > 0 {
          CompareTransitive(x, t[0], e);
        }
      }
      SortedCons(x, t);
    } else {
      var tail := t[1..];
      assert Sorted(tail) by {
        forall i, j | 0 <= i < j < |tail| ensures Compare(tail[i], tail[j]) <= 0 {
          assert tail[i] == t[i + 1] && tail[j] == t[j + 1];
        }
      }
      InsertSorted(x, tail);
      var rest := Insert(x, tail);
      InsertPermutes(x, tail);
      forall e | e in rest ensures Compare(t[0], e) <= 0 {
        assert e in multiset(rest);
        if e != x {
          assert e in tail;
          var j :| 0 <= j < |tail| && tail[j] == e;
          assert t[j + 1] == e;
        } else {
          CompareAntisymmetric(x, t[0]);
        }
      }
      SortedCons(t[0], rest);
    }
  }

  /** `Array.prototype.sort` with `Compare`: a stable sort (an insertion sort here). */
  function SortDomains(s: seq<Domain>): (r: seq<Domain>)
    ensures |r| == |s|
    decreases |s|
  {
    if s == [] then [] else Insert(s[0], SortDomains(s[1..]))
  }

  /** The sort's result is a permutation of its input. */
  lemma {:induction false} SortDomainsPermutes(s: seq<Domain>)
    ensures multiset(SortDomains(s)) == multiset(s)
    decreases |s|
  {
    if s != [] {
      SortDomainsPermutes(s[1..]);
      InsertPermutes(s[0], SortDomains(s[1..]));
      assert s == [s[0]] + s[1..];
    }
  }

  /** The sort's result is ordered by the comparator. */
  lemma {:induction false} SortDomainsSorted(s: seq<Domain>)
    ensures Sorted(SortDomains(s))
    decreases |s|
  {
    if s != [] {
      SortDomainsSorted(s[1..]);
      InsertSorted(s[0], SortDomains(s[1..]));
    }
  }

  /** "Ties with `k`": the records the comparator cannot tell from `k`. */
  function TiesWith(k: Domain): Domain -> bool {
    (d: Domain) => Compare(d, k) == 0
  }

  /** A record that sorts strictly before `x` cannot tie with `k` when `x` does. */
  lemma BeforeTieIsNoTie(x: Domain, e: Domain, k: Domain)
    requires Compare(x, e) > 0 && Compare(x, k) == 0
    ensures Compare(e, k) != 0
  {
  }

  lemma {:induction false} InsertTies(x: Domain, t: seq<Domain>, k: Domain)
    ensures Filter(Insert(x, t), TiesWith(k)) == (if Compare(x, k) == 0 then [x] else []) + Filter(t, TiesWith(k))
    decreases |t|
  {
    var p := TiesWith(k);
    if t == [] {
      FilterCons(x, [], p);
    } else if Compare(x, t[0]) <= 0 {
      FilterCons(x, t, p);
    } else {
      var t0, tail := t[0], t[1..];
      var rest := Insert(x, tail);
      InsertTies(x, tail, k);
      FilterCons(t0, rest, p);
      assert t == [t0] + tail;
      FilterCons(t0, tail, p);
      var f := Filter(tail, p);
      if p(x) {
        BeforeTieIsNoTie(x, t0, k);
        assert Filter(Insert(x, t), p) == Filter(rest, p) == [x] + f;
        assert Filter(t, p) == f;
      } else {
        assert Filter(rest, p) == f;
      }
    }
  }

  /** Stability: among records that tie, the sort keeps their original order. */
  lemma {:induction false} SortIsStable(s: seq<Domain>, k: Domain)
    ensures Filter(SortDomains(s), TiesWith(k)) == Filter(s, TiesWith(k))
    decreases |s|
  {
    if s != [] {
      SortIsStable(s[1..], k);
      InsertTies(s[0], SortDomains(s[1..]), k);
    }
  }

  /** Stability for every tie class at once. */
  lemma SortIsStableForAll(s: seq<Domain>)
    ensures forall k :: Filter(SortDomains(s), TiesWith(k)) == Filter(s, TiesWith(k))
  {
    forall k ensures Filter(SortDomains(s), TiesWith(k)) == Filter(s, TiesWith(k)) {
      SortIsStable(s, k);
    }
  }

  /** `filteredAndSortedDomains`: the search filter, then the sort. The result is a
      permutation of the matching domains, ordered by the comparator, and domains the
      comparator cannot tell apart keep their order in `ds`. */
  function FilteredAndSorted(ds: seq<Domain>, term: string): (r: seq<Domain>)
    ensures Sorted(r)
    ensures multiset(r) == multiset(Filter(ds, MatchesSearch(term)))
    ensures forall k :: Filter(r, TiesWith(k)) == Filter(Filter(ds, MatchesSearch(term)), TiesWith(k))
  {
    SortDomainsSorted(Filter(ds, MatchesSearch(term)));
    SortDomainsPermutes(Filter(ds, MatchesSearch(term)));
    SortIsStableForAll(Filter(ds, MatchesSearch(term)));
    SortDomains(Filter(ds, MatchesSearch(term)))
  }

  /** In the displayed list every domain with a valid expiration comes before every
      domain without one. */
  lemma ValidExpirationsShownFirst(ds: seq<Domain>, term: string, i: int, j: int)
    requires 0 <= i < |FilteredAndSorted(ds, term)| && 0 <= j < |FilteredAndSorted(ds, term)|
    requires FilteredAndSorted(ds, term)[i].expirationDate.Some?
    requires FilteredAndSorted(ds, term)[j].expirationDate.None?
    ensures i < j
  {
  }
}
