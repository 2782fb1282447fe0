/**
 Exactly which models a refresh writes, which app-servers an activation may restart, and when a
 new catalog takes effect.
 */
module ActivationAnswers {

  import opened Activation
  import opened AppServer
  import Catalog
  import Text
  import opened Wrappers

  // ----- Which models are written ---------------------------------------------------

  /** The visible models are the others in their order. */
  lemma {:induction false} VisibleAppends(a: seq<Catalog.Entry>, b: seq<Catalog.Entry>)
    ensures Catalog.Visible(a + b) == Catalog.Visible(a) + Catalog.Visible(b)
    decreases |b|
  {
    hide Catalog.Hidden;
    if b == [] {
      assert a + b == a;
    } else {
      var last := |b| - 1;
      assert (a + b)[..|a| + last] == a + b[..last];
      VisibleAppends(a, b[..last]);
    }
  }

  /** Every entry is kept in its place, unless it is hidden. */
  lemma {:induction false} VisibleKeeps(a: seq<Catalog.Entry>, e: Catalog.Entry, b: seq<Catalog.Entry>)
    ensures Catalog.Visible(a + [e] + b) ==
            Catalog.Visible(a) + (if Catalog.Hidden(e) then [] else [e]) + Catalog.Visible(b)
  {
    hide Catalog.Hidden;
    VisibleAppends(a + [e], b);
    VisibleAppends(a, [e]);
    assert [e][..0] == [];
  }

  /** Hidden is the word "hide" in any mixture of cases. */
  lemma {:induction false} HiddenExactly(e: Catalog.Entry)
    ensures Catalog.Hidden(e) <==>
              |e.visibility| == 4 && forall i :: 0 <= i < 4 ==> e.visibility[i] in {"hide"[i], "HIDE"[i]}
  {
    if |e.visibility| == 4 {
      var v := e.visibility;
      LowerIs(v[0], 'h', 'H');
      LowerIs(v[1], 'i', 'I');
      LowerIs(v[2], 'd', 'D');
      LowerIs(v[3], 'e', 'E');
      hide Catalog.Lower;
      assert "hide"[0] == 'h' && "hide"[1] == 'i' && "hide"[2] == 'd' && "hide"[3] == 'e';
      assert "HIDE"[0] == 'H' && "HIDE"[1] == 'I' && "HIDE"[2] == 'D' && "HIDE"[3] == 'E';
      assert (forall i :: 0 <= i < 4 ==> v[i] in {"hide"[i], "HIDE"[i]}) <==>
               v[0] in {'h', 'H'} && v[1] in {'i', 'I'} && v[2] in {'d', 'D'} && v[3] in {'e', 'E'};
    }
  }

  lemma {:induction false} LowerIs(c: char, small: char, large: char)
    requires 'a' <= small <= 'z' && large as int + 32 == small as int
    ensures Catalog.Lower(c) == small <==> c in {small, large}
  {}

  predicate Blank(s: Option<string>) {
    s.Some? ==> forall i :: 0 <= i < |s.value| ==> Text.IsSpace(s.value[i])
  }

  lemma {:induction false} TrimmedBlank(s: string)
    ensures Text.Trim(s) == "" <==> Blank(Some(s))
  {
    hide Text.IsSpace;
    TrimLeftBlank(s);
    TrimRightBlank(Text.TrimLeft(s));
  }

  lemma {:induction false} TrimLeftBlank(s: string)
    ensures Text.TrimLeft(s) == "" <==> Blank(Some(s))
    ensures Text.TrimLeft(s) != "" ==> !Text.IsSpace(Text.TrimLeft(s)[0])
  {
    hide Text.IsSpace;
    if s != "" && Text.IsSpace(s[0]) {
      TrimLeftBlank(s[1..]);
      assert s == [s[0]] + s[1..];
    }
  }

  lemma {:induction false} TrimRightBlank(s: string)
    requires s != "" ==> !Text.IsSpace(s[0])
    ensures Text.TrimRight(s) == "" <==> s == ""
    decreases |s|
  {
    hide Text.IsSpace;
    if s != "" && Text.IsSpace(s[|s| - 1]) {
      TrimRightBlank(s[..|s| - 1]);
    }
  }

  /** A model has no identifier exactly when slug and id are both missing or blank; the slug comes first. */
  lemma {:induction false} IdentifierExactly(e: Catalog.Entry)
    ensures Catalog.ModelId(e) == "" <==> Blank(e.slug) && Blank(e.id)
    ensures !Blank(e.slug) ==> Catalog.ModelId(e) == Text.Trim(e.slug.value)
    ensures Blank(e.slug) && !Blank(e.id) ==> Catalog.ModelId(e) == Text.Trim(e.id.value)
  {
    hide Text.Trim, Text.IsSpace;
    if e.slug.Some? { TrimmedBlank(e.slug.value); }
    if e.id.Some? { TrimmedBlank(e.id.value); }
  }

  // ----- Which app-servers may be restarted ------------------------------------------

  /** Entry `k` sets the home to `path`, and no other entry sets it. */
  predicate SetsHomeAt(entries: seq<string>, k: nat, path: string) {
    && k < |entries| && entries[k] == HOME + path
    && forall j :: 0 <= j < |entries| && j != k ==> !IsHomeEntry(entries[j])
  }

  ghost predicate SetsHomeOnce(entries: seq<string>, path: string) {
    exists k: nat :: SetsHomeAt(entries, k, path)
  }

  lemma {:induction false} NoHomes(entries: seq<string>)
    ensures Homes(entries) == [] <==> forall j :: 0 <= j < |entries| ==> !IsHomeEntry(entries[j])
  {
    hide IsHomeEntry;
    if entries != [] {
      var last := |entries| - 1;
      NoHomes(entries[..last]);
      assert forall j :: 0 <= j < last ==> entries[..last][j] == entries[j];
    }
  }

  lemma {:induction false} HomeEntry(entry: string, path: string)
    ensures IsHomeEntry(entry) && entry[|HOME|..] == path <==> entry == HOME + path
  {
    if entry == HOME + path {
      assert entry[..|HOME|] == HOME;
    }
  }

  /** The environment gives one home exactly when one entry sets it and no other does. */
  lemma {:induction false} HomesExactly(entries: seq<string>, path: string)
    ensures Homes(entries) == [path] <==> SetsHomeOnce(entries, path)
  {
    hide IsHomeEntry;
    if entries != [] {
      var last := |entries| - 1;
      var init, entry := entries[..last], entries[last];
      assert forall j :: 0 <= j < last ==> init[j] == entries[j];
      HomesExactly(init, path);
      NoHomes(init);
      HomeEntry(entry, path);
      if IsHomeEntry(entry) {
        LastHome(entries, path);
        HomeEntryIsLong(entry);
        var homes, value := Homes(init), entry[|HOME|..];
        assert Homes(entries) == homes + [value] && (homes + [value])[|homes|] == value;
        assert homes == [] ==> homes + [value] == [value];
      } else {
        EarlierHome(entries, path);
      }
    }
  }

  lemma {:induction false} LastHome(entries: seq<string>, path: string)
    requires entries != [] && IsHomeEntry(entries[|entries| - 1])
    ensures SetsHomeOnce(entries, path) <==>
              Homes(entries[..|entries| - 1]) == [] && entries[|entries| - 1] == HOME + path
  {
    hide IsHomeEntry, Homes;
    var last := |entries| - 1;
    NoHomes(entries[..last]);
    assert forall j :: 0 <= j < last ==> entries[..last][j] == entries[j];
    if Homes(entries[..last]) == [] && entries[last] == HOME + path {
      assert SetsHomeAt(entries, last, path);
    }
  }

  lemma {:induction false} EarlierHome(entries: seq<string>, path: string)
    requires entries != [] && !IsHomeEntry(entries[|entries| - 1])
    ensures SetsHomeOnce(entries, path) <==> SetsHomeOnce(entries[..|entries| - 1], path)
  {
    hide IsHomeEntry;
    var last := |entries| - 1;
    var init := entries[..last];
    assert forall j :: 0 <= j < last ==> init[j] == entries[j];
    HomeEntry(entries[last], path);
    if k: nat :| SetsHomeAt(init, k, path) {
      assert SetsHomeAt(entries, k, path);
    }
    if k: nat :| SetsHomeAt(entries, k, path) {
      assert SetsHomeAt(init, k, path);
    }
  }

  /** What makes an app-server eligible, read off its environment. */
  ghost predicate ProvenFor(p: Process, expected: string, host: Host) {
    && host.isAppServer(p.command) && host.environment(p.pid).Some?
    && exists path :: SetsHomeOnce(host.environment(p.pid).value, path) && IsAbs(path) && host.clean(path) == expected
  }

  lemma {:induction false} EligibleExactly(p: Process, expected: string, host: Host)
    ensures Eligible(p, expected, host) <==> ProvenFor(p, expected, host)
  {
    hide Homes, SetsHomeOnce, IsAbs;
    if host.environment(p.pid).Some? {
      var entries := host.environment(p.pid).value;
      if |Homes(entries)| == 1 {
        assert Homes(entries) == [Homes(entries)[0]];
        HomesExactly(entries, Homes(entries)[0]);
      }
      forall path | SetsHomeOnce(entries, path)
        ensures Homes(entries) == [path]
      {
        HomesExactly(entries, path);
      }
    }
  }

  // ----- Activation --------------------------------------------------------------------

  /** The activation can restart every candidate it found, and clear the marker. */
  ghost predicate Succeeds(q: Request) {
    && q.manage && q.home != "" && q.found.Some? && q.cleared
    && forall i :: 0 <= i < |q.found.value| ==>
         var p := q.found.value[i];
         ProvenFor(p, q.home, q.host) && p.pid > 1 && q.host.delivered(p.pid)
  }

  /** A pending activation is settled exactly by a request that succeeds, and then the catalog on disk is in force. */
  lemma {:induction false} SettledExactly(w: World, q: Request)
    requires Pending(w.files)
    ensures !Pending(Step(w, Apply(q)).files) <==> Succeeds(q)
    ensures Succeeds(q) ==> Step(w, Apply(q)).inForce == w.files.catalog
    ensures Step(w, Apply(q)).files.catalog == w.files.catalog
  {
    hide Eligible, ProvenFor;
    if q.found.Some? {
      forall i | 0 <= i < |q.found.value|
        ensures Eligible(q.found.value[i], q.home, q.host) <==> ProvenFor(q.found.value[i], q.home, q.host)
      {
        EligibleExactly(q.found.value[i], q.home, q.host);
      }
    }
  }

  /** Without a pending marker an activation does nothing. */
  lemma {:induction false} NothingPending(w: World, q: Request)
    requires !Pending(w.files)
    ensures Step(w, Apply(q)) == w
  {
    hide AllRestarted;
  }

  // ----- Refreshing ---------------------------------------------------------------------

  /** What a refresh has to write, if anything: the visible models, all identified. */
  ghost predicate Offers(q: Fetched, payload: Bytes) {
    && q.entries.Some?
    && var models := Catalog.Visible(q.entries.value);
       models != [] && Catalog.Identified(models) && payload == q.render(models)
  }

  /**
   The catalog changes exactly when a refresh offers other bytes than those on disk, which it could
   read, and replaces the file; then it holds what was offered and the backup holds what was there.
   */
  lemma {:induction false} ReplacedExactly(f: Files, q: Fetched)
    ensures var g := RefreshedFiles(f, q);
            && (g.catalog != f.catalog <==>
                  && (exists payload :: Offers(q, payload) && f.catalog != Some(payload))
                  && (f.catalog.Some? ==> q.readable) && q.write.Replaced?)
            && (g.catalog != f.catalog ==>
                  && g.catalog.Some? && Offers(q, g.catalog.value)
                  && (f.catalog.Some? ==> g.previous == f.catalog))
            && (g.catalog == f.catalog ==> g.marker == f.marker)
  {
    hide Catalog.Visible, Catalog.Identified;
    if Payload(q).Some? {
      assert Offers(q, Payload(q).value);
    }
  }

  /** A refreshed catalog that is marked, and then activated, is the one in force. */
  lemma {:induction false} NewCatalogTakesEffect(w: World, q: Fetched, payload: Bytes, a: Request)
    requires Offers(q, payload) && w.files.catalog != Some(payload) && (w.files.catalog.Some? ==> q.readable)
    requires q.write.Replaced? && q.mark == Marked && w.files.marker != Irregular && Succeeds(a)
    ensures var t := Run(w, [Refresh(q), Apply(a)]);
            t.files.catalog == Some(payload) && t.inForce == Some(payload) && !Pending(t.files)
  {
    hide Catalog.Visible, Catalog.Identified, AllRestarted, Succeeds;
    var u := Step(w, Refresh(q));
    assert [Refresh(q), Apply(a)][1..] == [Apply(a)] && [Apply(a)][1..] == [];
    assert Run(w, [Refresh(q), Apply(a)]) == Run(u, [Apply(a)]) == Run(Step(u, Apply(a)), []);
    assert Payload(q) == Some(payload);
    SettledExactly(u, a);
  }
}
