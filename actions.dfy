/** The server actions: they call the record store and convert its records to the
    typed records the pages use. `new Date(text)` is the parameter `parseDate`
    (`None` for an invalid date); `Date#toISOString` is the parameter `toIso`. */
module Actions {
  import opened Wrappers
  import opened Domains
  import opened DataStorage
  import Text
  import Seqs

  /** A property that is present and truthy (as a string, non-empty). */
  predicate Present(r: Rec, key: string) {
    key in r && r[key] != ""
  }

  /** The property as the mapping reads it; an absent id or name is read as "". */
  function Field(r: Rec, key: string): string {
    if key in r then r[key] else ""
  }

  /** `new Date(domain.dateAdded || domain.createdAt || fallback)`; `fallback` is the
      current time in `getAllDomains` and absent (an invalid date) elsewhere. */
  function DateAddedOf(r: Rec, parseDate: string -> Option<int>, fallback: Option<int>): (d: Option<int>)
    ensures Present(r, "dateAdded") ==> d == parseDate(r["dateAdded"])
    ensures !Present(r, "dateAdded") && Present(r, "createdAt") ==> d == parseDate(r["createdAt"])
    ensures !Present(r, "dateAdded") && !Present(r, "createdAt") ==> d == fallback
  {
    if Present(r, "dateAdded") then parseDate(r["dateAdded"])
    else if Present(r, "createdAt") then parseDate(r["createdAt"])
    else fallback
  }

  /** A record of the store converted to a `DomainInfo`. */
  function ToInfo(r: Rec, parseDate: string -> Option<int>, fallback: Option<int>): (d: Domain)
    ensures d.id == Field(r, "id") && d.name == Field(r, "name")
    ensures d.expirationDate == if "expirationDate" in r then parseDate(r["expirationDate"]) else None
    ensures d.dateAdded == DateAddedOf(r, parseDate, fallback)
  {
    Domain(Field(r, "id"), Field(r, "name"),
           if "expirationDate" in r then parseDate(r["expirationDate"]) else None,
           DateAddedOf(r, parseDate, fallback))
  }

  /** `domains.map(...)` in `getAllDomains`. */
  function ToInfos(rs: seq<Rec>, parseDate: string -> Option<int>, now: int): (ds: seq<Domain>)
    ensures |ds| == |rs|
    ensures forall i :: 0 <= i < |rs| ==> ds[i] == ToInfo(rs[i], parseDate, Some(now))
  {
    seq(|rs|, i requires 0 <= i < |rs| => ToInfo(rs[i], parseDate, Some(now)))
  }

  /** The object `addDomain` hands to the store. */
  function AddPayload(name: string, expirationIso: string, addedIso: string): (r: Rec)
    ensures r.Keys == {"name", "expirationDate", "dateAdded"}
    ensures r["name"] == name && r["expirationDate"] == expirationIso && r["dateAdded"] == addedIso
  {
    map["name" := name, "expirationDate" := expirationIso, "dateAdded" := addedIso]
  }

  /** The object `updateDomain` hands to the store: name and expiration only. */
  function UpdatePayload(name: string, expirationIso: string): (r: Rec)
    ensures r.Keys == {"name", "expirationDate"}
    ensures r["name"] == name && r["expirationDate"] == expirationIso
  {
    map["name" := name, "expirationDate" := expirationIso]
  }

  /** `getAllDomains`: one typed record per stored record, in the stored order. */
  method GetAllDomains(store: FileStore, parseDate: string -> Option<int>, now: int) returns (ds: seq<Domain>)
    modifies store
    ensures store.dataDir && store.file == Ensured(old(store.file))
    ensures ds == ToInfos(Contents(old(store.file)), parseDate, now)
  {
    var rs := store.LoadDomains();
    ds := ToInfos(rs, parseDate, now);
  }

  /** `addDomain` */
  method AddDomain(store: FileStore, name: string, expirationDate: int, toIso: int -> string,
                   parseDate: string -> Option<int>, nowMs: int, addedIso: string, createdIso: string)
    returns (d: Domain)
    modifies store
    ensures var rec := NewRecord(AddPayload(name, toIso(expirationDate), addedIso), nowMs, createdIso);
      store.file == Document(Some(Contents(old(store.file)) + [rec])) && d == ToInfo(rec, parseDate, None)
    ensures store.dataDir
  {
    var rec := store.AddDomain(AddPayload(name, toIso(expirationDate), addedIso), nowMs, createdIso);
    d := ToInfo(rec, parseDate, None);
  }

  /** `updateDomain`: null exactly when the store has no record with the id; otherwise the
      first record with the id is replaced by its merge with name and expiration. */
  method UpdateDomain(store: FileStore, id: string, name: string, expirationDate: int,
                      toIso: int -> string, parseDate: string -> Option<int>, updatedIso: string)
    returns (d: Option<Domain>)
    modifies store
    ensures var before := Contents(old(store.file)); var k := FirstIndex(before, id);
      (d.None? <==> k == -1) &&
      (k != -1 ==> d == Some(ToInfo(Merge(before[k], UpdatePayload(name, toIso(expirationDate)), updatedIso), parseDate, None)))
    ensures store.dataDir
    ensures var before := Contents(old(store.file)); var k := FirstIndex(before, id);
      (k == -1 ==> store.file == Ensured(old(store.file))) &&
      (k != -1 ==> store.file == Document(Some(before[k := Merge(before[k], UpdatePayload(name, toIso(expirationDate)), updatedIso)])))
  {
    var updated := store.UpdateDomain(id, UpdatePayload(name, toIso(expirationDate)), updatedIso);
    if updated.None? {
      return None;
    }
    return Some(ToInfo(updated.value, parseDate, None));
  }

  /** `deleteDomain`: the id it was given, whether or not a record had it. */
  method DeleteDomain(store: FileStore, id: string) returns (r: string)
    modifies store
    ensures r == id && store.dataDir
    ensures store.file == Document(Some(Seqs.Filter(Contents(old(store.file)), LacksId(id))))
  {
    r := store.DeleteDomain(id);
  }

  /** The record `addDomain` returns carries the name and expiration it was given and the
      `dateAdded` it stored, and the id the store assigned from the clock. */
  lemma AddedRecordReadsBack(name: string, expirationDate: int, toIso: int -> string,
                             parseDate: string -> Option<int>, nowMs: int, addedIso: string, createdIso: string)
    requires parseDate(toIso(expirationDate)) == Some(expirationDate)
    requires addedIso != ""
    ensures var d := ToInfo(NewRecord(AddPayload(name, toIso(expirationDate), addedIso), nowMs, createdIso), parseDate, None);
      d.id == Text.IntText(nowMs) && d.name == name && d.expirationDate == Some(expirationDate) &&
      d.dateAdded == parseDate(addedIso)
  {
    var rec := NewRecord(AddPayload(name, toIso(expirationDate), addedIso), nowMs, createdIso);
    assert "id" !in AddPayload(name, toIso(expirationDate), addedIso);
    assert rec["name"] == name && rec["dateAdded"] == addedIso;
  }

  /** An update forwards only name and expiration, so the stored id, `dateAdded` and
      `createdAt` survive it, and so do the id and `dateAdded` the page reads back. */
  lemma UpdateKeepsIdentity(r: Rec, name: string, expirationIso: string, updatedIso: string, parseDate: string -> Option<int>)
    ensures var m := Merge(r, UpdatePayload(name, expirationIso), updatedIso);
      (forall k :: k in {"id", "dateAdded", "createdAt"} ==> (k in m <==> k in r) && (k in r ==> m[k] == r[k])) &&
      m["name"] == name && m["expirationDate"] == expirationIso &&
      ToInfo(m, parseDate, None).id == ToInfo(r, parseDate, None).id &&
      ToInfo(m, parseDate, None).dateAdded == ToInfo(r, parseDate, None).dateAdded
  {
    var m := Merge(r, UpdatePayload(name, expirationIso), updatedIso);
    assert Present(m, "dateAdded") == Present(r, "dateAdded");
    assert Present(m, "createdAt") == Present(r, "createdAt");
  }

  /** The fallback chain uses the clock only for a record with neither a `dateAdded`
      nor a `createdAt`. */
  lemma DateAddedUsesClockOnlyAsLastResort(r: Rec, parseDate: string -> Option<int>, now: int, later: int)
    ensures Present(r, "dateAdded") || Present(r, "createdAt") ==>
      DateAddedOf(r, parseDate, Some(now)) == DateAddedOf(r, parseDate, Some(later))
    ensures now != later && !Present(r, "dateAdded") && !Present(r, "createdAt") ==>
      DateAddedOf(r, parseDate, Some(now)) != DateAddedOf(r, parseDate, Some(later))
  {
  }
}
