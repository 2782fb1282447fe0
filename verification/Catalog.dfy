/**
 The model catalog a refresh writes: `filterVisible` and `modelID` of `catalog/catalog.go`.
 */
module Catalog {

  import opened Text
  import opened Wrappers

  datatype CatalogError =
    | MissingIdentifier
    | DuplicateIdentifier
    | NoVisibleModels

  // ----- Visible models -----------------------------------------------------------

  /** One model entry; `None` stands for a value that is absent or not a string. */
  datatype Entry = Entry(visibility: string, slug: Option<string>, id: Option<string>, body: string)

  function Lower(c: char): char {
    if 'A' <= c <= 'Z' then (c as int + 32) as char else c
  }

  predicate Hidden(e: Entry) {
    |e.visibility| == 4 && Lower(e.visibility[0]) == 'h' && Lower(e.visibility[1]) == 'i'
    && Lower(e.visibility[2]) == 'd' && Lower(e.visibility[3]) == 'e'
  }

  /** `modelID`: the first of slug and id that is not blank, trimmed; empty when there is none. */
  function ModelId(e: Entry): string {
    if e.slug.Some? && Trim(e.slug.value) != "" then Trim(e.slug.value)
    else if e.id.Some? then Trim(e.id.value)
    else ""
  }

  function Visible(entries: seq<Entry>): seq<Entry> {
    if entries == [] then []
    else
      var last := entries[|entries| - 1];
      Visible(entries[..|entries| - 1]) + (if Hidden(last) then [] else [last])
  }

  /** Every entry has an identifier and no two have the same. */
  predicate Identified(entries: seq<Entry>) {
    && (forall i :: 0 <= i < |entries| ==> ModelId(entries[i]) != "")
    && (forall i, j :: 0 <= i < j < |entries| ==> ModelId(entries[i]) != ModelId(entries[j]))
  }

  predicate Repeats(entries: seq<Entry>, k: nat)
    requires k < |entries|
  {
    exists i :: 0 <= i < k && ModelId(entries[i]) == ModelId(entries[k])
  }

  /** The first entry that cannot be listed, and why. */
  predicate FirstFault(entries: seq<Entry>, error: CatalogError) {
    exists k :: 0 <= k < |entries| && Identified(entries[..k]) && FaultAt(entries, k, error)
  }

  predicate FaultAt(entries: seq<Entry>, k: nat, error: CatalogError)
    requires k < |entries|
  {
    if ModelId(entries[k]) == "" then error == MissingIdentifier
    else error == DuplicateIdentifier && Repeats(entries, k)
  }

  lemma {:induction false} VisiblePrefix(entries: seq<Entry>, n: nat)
    requires n <= |entries|
    ensures Visible(entries[..n]) <= Visible(entries)
    decreases |entries|
  {
    hide Hidden;
    if n < |entries| {
      VisiblePrefix(entries[..|entries| - 1], n);
      assert entries[..|entries| - 1][..n] == entries[..n];
    } else {
      assert entries[..n] == entries;
    }
  }

  predicate Seen(ids: set<string>, entries: seq<Entry>) {
    && (forall i :: 0 <= i < |entries| ==> ModelId(entries[i]) in ids)
    && (forall id :: id in ids ==> exists i :: 0 <= i < |entries| && ModelId(entries[i]) == id)
  }

  lemma {:induction false} SeenMore(ids: set<string>, entries: seq<Entry>, e: Entry)
    requires Seen(ids, entries) && Identified(entries) && ModelId(e) != "" && ModelId(e) !in ids
    ensures Seen(ids + {ModelId(e)}, entries + [e]) && Identified(entries + [e])
  {
    hide ModelId;
    var more := entries + [e];
    forall id | id in ids + {ModelId(e)}
      ensures exists i :: 0 <= i < |more| && ModelId(more[i]) == id
    {
      if id in ids {
        var i :| 0 <= i < |entries| && ModelId(entries[i]) == id;
        assert more[i] == entries[i];
      } else {
        assert more[|entries|] == e;
      }
    }
  }

  /** A fault after a clean prefix is the first fault, and the list is not identified. */
  lemma {:induction false} FaultStops(all: seq<Entry>, k: nat, error: CatalogError)
    requires k < |all| && Identified(all[..k]) && FaultAt(all, k, error)
    ensures FirstFault(all, error) && !Identified(all)
  {
    hide ModelId;
  }

  lemma {:induction false} SeenFault(all: seq<Entry>, k: nat, ids: set<string>)
    requires k < |all| && Seen(ids, all[..k]) && ModelId(all[k]) != "" && ModelId(all[k]) in ids
    ensures FaultAt(all, k, DuplicateIdentifier)
  {
    hide ModelId;
    var i :| 0 <= i < k && ModelId(all[..k][i]) == ModelId(all[k]);
    assert all[i] == all[..k][i];
  }

  lemma {:induction false} VisibleStep(entries: seq<Entry>, index: nat)
    requires index < |entries|
    ensures Visible(entries[..index + 1]) == Visible(entries[..index]) +
        (if Hidden(entries[index]) then [] else [entries[index]])
    ensures Visible(entries[..index + 1]) <= Visible(entries)
  {
    hide Hidden;
    assert entries[..index + 1][..index] == entries[..index];
    VisiblePrefix(entries, index + 1);
  }

  /** `filterVisible`. */
  method FilterVisible(entries: seq<Entry>) returns (r: Result<seq<Entry>, CatalogError>)
    ensures r.Ok? <==> Identified(Visible(entries)) && Visible(entries) != []
    ensures r.Ok? ==> r.value == Visible(entries)
    ensures r == Err(NoVisibleModels) <==> Visible(entries) == []
    ensures r.Err? && Visible(entries) != [] ==> FirstFault(Visible(entries), r.error)
  {
    hide ModelId, Hidden, Seen, Identified, FirstFault, Repeats;
    var seen: set<string> := {};
    var filtered: seq<Entry> := [];
    ghost var all := Visible(entries);
    assert Seen(seen, filtered) && Identified(filtered) by { NothingSeen(); }
    for index := 0 to |entries|
      invariant filtered == Visible(entries[..index])
      invariant Seen(seen, filtered) && Identified(filtered)
    {
      var entry := entries[index];
      VisibleStep(entries, index);
      if Hidden(entry) {
        continue;
      }
      ghost var k := |filtered|;
      assert all[..k] == filtered && all[k] == entry;
      var id := ModelId(entry);
      if id == "" {
        FaultStops(all, k, MissingIdentifier);
        return Err(MissingIdentifier);
      }
      if id in seen {
        SeenFault(all, k, seen);
        FaultStops(all, k, DuplicateIdentifier);
        return Err(DuplicateIdentifier);
      }
      SeenMore(seen, filtered, entry);
      seen := seen + {id};
      filtered := filtered + [entry];
    }
    assert entries[..|entries|] == entries;
    if |filtered| == 0 {
      return Err(NoVisibleModels);
    }
    r := Ok(filtered);
  }

  lemma {:induction false} NothingSeen()
    ensures Seen({}, []) && Identified([])
  {
  }
}
