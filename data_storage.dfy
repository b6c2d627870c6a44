/** The server-side record store: one JSON document `{ "domains": [...] }` in a data
    directory. The file system is abstracted to whether the directory exists and what
    the document file holds; a record is the JSON object as a map from property names
    to their (string) values. */
module DataStorage {
  import opened Wrappers
  import Text
  import Seqs

  type Rec = map<string, string>

  /** The document file: absent, unreadable or not JSON, or a parsed object whose
      `domains` property is absent or falsy (`None`) or an array of records. */
  datatype StoreFile = Missing | Corrupt | Document(domains: Option<seq<Rec>>)

  /** What `ensureDataDir` leaves in the file: an absent file becomes `{ domains: [] }`. */
  function Ensured(f: StoreFile): (r: StoreFile)
    ensures r != Missing
    ensures f != Missing ==> r == f
    ensures Contents(r) == Contents(f)
  {
    if f.Missing? then Document(Some([])) else f
  }

  /** The array `loadDomains` returns for a file: `[]` when reading or parsing fails or
      the document has no `domains`. */
  function Contents(f: StoreFile): (xs: seq<Rec>)
    ensures xs != [] <==> f.Document? && f.domains.Some? && f.domains.value != []
  {
    match f
    case Document(Some(xs)) => xs
    case _ => []
  }

  /** `d.id === id` */
  predicate HasId(r: Rec, id: string) {
    "id" in r && r["id"] == id
  }

  /** `(d) => d.id !== id` */
  function LacksId(id: string): Rec -> bool {
    (r: Rec) => !HasId(r, id)
  }

  /** `domains.findIndex(d => d.id === id)` */
  function FirstIndex(xs: seq<Rec>, id: string): (k: int)
    ensures -1 <= k < |xs|
    ensures k >= 0 ==> HasId(xs[k], id) && forall j :: 0 <= j < k ==> !HasId(xs[j], id)
    ensures k == -1 <==> forall j :: 0 <= j < |xs| ==> !HasId(xs[j], id)
    decreases |xs|
  {
    if xs == [] then -1
    else if HasId(xs[0], id) then 0
    else
      var k := FirstIndex(xs[1..], id);
      if k == -1 then -1 else k + 1
  }

  /** `{ id: Date.now().toString(), ...domain, createdAt: <now as ISO text> }` */
  function NewRecord(domain: Rec, nowMs: int, createdIso: string): (r: Rec)
    ensures r.Keys == domain.Keys + {"id", "createdAt"}
    ensures r["createdAt"] == createdIso
    ensures r["id"] == if "id" in domain then domain["id"] else Text.IntText(nowMs)
    ensures forall k :: k in domain && k != "createdAt" ==> r[k] == domain[k]
  {
    map["id" := Text.IntText(nowMs)] + domain + map["createdAt" := createdIso]
  }

  /** `{ ...domains[index], ...domainData, updatedAt: <now as ISO text> }` */
  function Merge(current: Rec, data: Rec, updatedIso: string): (r: Rec)
    ensures r.Keys == current.Keys + data.Keys + {"updatedAt"}
    ensures r["updatedAt"] == updatedIso
    ensures forall k :: k in data && k != "updatedAt" ==> r[k] == data[k]
    ensures forall k :: k in current && k !in data && k != "updatedAt" ==> r[k] == current[k]
  {
    current + data + map["updatedAt" := updatedIso]
  }

  /** The loop `findIndex` runs. */
  method FindIndex(xs: seq<Rec>, id: string) returns (k: int)
    ensures k == FirstIndex(xs, id)
  {
    var i := 0;
    while i < |xs|
      invariant 0 <= i <= |xs|
      invariant forall j :: 0 <= j < i ==> !HasId(xs[j], id)
    {
      if HasId(xs[i], id) {
        return i;
      }
      i := i + 1;
    }
    return -1;
  }

  class FileStore {
    var dataDir: bool
    var file: StoreFile

    constructor (dataDir: bool, file: StoreFile)
      ensures this.dataDir == dataDir && this.file == file
    {
      this.dataDir, this.file := dataDir, file;
    }

    /** `ensureDataDir`: creates the directory and an empty document when missing. */
    method EnsureDataDir()
      modifies this
      ensures dataDir && file == Ensured(old(file))
    {
      if !dataDir {
        dataDir := true;
      }
      if file.Missing? {
        file := Document(Some([]));
      }
    }

    /** `saveDomains`: the document afterwards holds exactly `xs`. */
    method SaveDomains(xs: seq<Rec>) returns (r: seq<Rec>)
      modifies this
      ensures dataDir && file == Document(Some(xs))
      ensures Contents(file) == xs && r == xs
    {
      EnsureDataDir();
      file := Document(Some(xs));
      r := xs;
    }

    /** `loadDomains`: the stored array, or `[]` when there is none to read. */
    method LoadDomains() returns (xs: seq<Rec>)
      modifies this
      ensures dataDir && file == Ensured(old(file))
      ensures xs == Contents(old(file))
    {
      EnsureDataDir();
      xs := Contents(file);
    }

    /** `addDomain`: appends one record with a time-based id and `createdAt`. */
    method AddDomain(domain: Rec, nowMs: int, createdIso: string) returns (newDomain: Rec)
      modifies this
      ensures newDomain == NewRecord(domain, nowMs, createdIso)
      ensures file == Document(Some(Contents(old(file)) + [newDomain]))
      ensures dataDir
    {
      var xs := LoadDomains();
      newDomain := NewRecord(domain, nowMs, createdIso);
      xs := xs + [newDomain];
      var _ := SaveDomains(xs);
    }

    /** `updateDomain`: merges `data` into the first record with the id and writes the
        array; with no such record it returns null and leaves the document as
        `ensureDataDir` left it (an absent file has become an empty document). */
    method UpdateDomain(id: string, data: Rec, updatedIso: string) returns (r: Option<Rec>)
      modifies this
      ensures dataDir
      ensures var before := Contents(old(file)); var k := FirstIndex(before, id);
        if k == -1 then r == None && file == Ensured(old(file))
        else r == Some(Merge(before[k], data, updatedIso)) &&
             file == Document(Some(before[k := Merge(before[k], data, updatedIso)]))
    {
      var xs := LoadDomains();
      var index := FindIndex(xs, id);
      if index != -1 {
        xs := xs[index := Merge(xs[index], data, updatedIso)];
        var _ := SaveDomains(xs);
        return Some(xs[index]);
      }
      return None;
    }

    /** `deleteDomain`: drops every record with the id, always writes, returns the id. */
    method DeleteDomain(id: string) returns (r: string)
      modifies this
      ensures r == id && dataDir
      ensures file == Document(Some(Seqs.Filter(Contents(old(file)), LacksId(id))))
    {
      var xs := LoadDomains();
      var filtered := Seqs.Filter(xs, LacksId(id));
      var _ := SaveDomains(filtered);
      return id;
    }
  }

  /** An update changes only the record at the first matching index. */
  lemma UpdateTouchesOnlyFirstMatch(xs: seq<Rec>, id: string, data: Rec, updatedIso: string)
    requires FirstIndex(xs, id) != -1
    ensures var k := FirstIndex(xs, id); var ys := xs[k := Merge(xs[k], data, updatedIso)];
      |ys| == |xs| && (forall j :: 0 <= j < |xs| && j != k ==> ys[j] == xs[j]) &&
      HasId(ys[k], id) == ("id" !in data || data["id"] == id)
  {
  }

  /** Deleting removes every record with the id, keeps every other record as often as it
      occurred, and keeps their order (it distributes over concatenation). */
  lemma DeleteKeepsExactlyOthers(xs: seq<Rec>, rest: seq<Rec>, id: string, r: Rec)
    ensures forall e :: e in Seqs.Filter(xs, LacksId(id)) ==> !HasId(e, id)
    ensures !HasId(r, id) ==> multiset(Seqs.Filter(xs, LacksId(id)))[r] == multiset(xs)[r]
    ensures Seqs.Filter(xs + rest, LacksId(id)) == Seqs.Filter(xs, LacksId(id)) + Seqs.Filter(rest, LacksId(id))
  {
    Seqs.FilterCount(xs, LacksId(id), r);
    Seqs.FilterConcat(xs, rest, LacksId(id));
  }
}
