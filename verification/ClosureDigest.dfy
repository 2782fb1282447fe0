/**
 The byte stream of the closure digest: what it holds for a tree, that it decodes uniquely
 although entries have three or four fields, and that equal streams mean equal trees.
 */
module ClosureDigest {

  import opened Closure
  import opened Wrappers

  // ----- Length-prefixed fields ----------------------------------------------

  const FIELD_LIMIT: nat := 0x1_0000_0000_0000_0000

  function Pow256(k: nat): (n: nat)
    ensures n >= 1
  {
    if k == 0 then 1 else 256 * Pow256(k - 1)
  }

  /** `n.to_bytes(k, "big")`. */
  function BigEndian(n: nat, k: nat): (r: Bytes)
    ensures |r| == k
  {
    if k == 0 then [] else BigEndian(n / 256, k - 1) + [n % 256]
  }

  lemma {:induction false} BigEndianInjective(n: nat, m: nat, k: nat)
    requires n < Pow256(k) && m < Pow256(k) && BigEndian(n, k) == BigEndian(m, k)
    ensures n == m
  {
    if k > 0 {
      var a, b := BigEndian(n / 256, k - 1), BigEndian(m / 256, k - 1);
      assert (a + [n % 256])[..k - 1] == a && (b + [m % 256])[..k - 1] == b;
      assert (a + [n % 256])[k - 1] == n % 256 && (b + [m % 256])[k - 1] == m % 256;
      BigEndianInjective(n / 256, m / 256, k - 1);
    }
  }

  /** The number some bytes stand for, most significant first. */
  function Value(b: Bytes): nat {
    if b == [] then 0 else b[0] * Pow256(|b| - 1) + Value(b[1..])
  }

  lemma {:induction false} ValueSnoc(b: Bytes, last: Byte)
    ensures Value(b + [last]) == 256 * Value(b) + last
  {
    if b != [] {
      assert (b + [last])[1..] == b[1..] + [last];
      ValueSnoc(b[1..], last);
      var p := Pow256(|b| - 1);
      assert Pow256(|b|) == 256 * p;
      assert b[0] * (256 * p) == 256 * (b[0] * p);
    } else {
      assert [last][1..] == [];
    }
  }

  /** Read from the most significant byte on, the bytes of a number give it back. */
  lemma {:induction false} BigEndianReads(n: nat, k: nat)
    requires n < Pow256(k)
    ensures Value(BigEndian(n, k)) == n
  {
    if k > 0 {
      BigEndianReads(n / 256, k - 1);
      ValueSnoc(BigEndian(n / 256, k - 1), n % 256);
    }
  }

  lemma {:induction false} EightBytes()
    ensures Pow256(8) == FIELD_LIMIT
  {
    assert Pow256(1) == 0x100;
    assert Pow256(2) == 0x1_0000;
    assert Pow256(4) == 0x1_0000_0000 by { assert Pow256(3) == 0x100_0000; }
    assert Pow256(6) == 0x1_0000_0000_0000 by { assert Pow256(5) == 0x100_0000_0000; }
    assert Pow256(7) == 0x100_0000_0000_0000;
  }

  predicate Short(v: Bytes) {
    |v| < FIELD_LIMIT
  }

  /** `canonical_field`: the length in eight bytes, then the value. */
  function Field(v: Bytes): (r: Bytes)
    ensures |r| == 8 + |v|
  {
    BigEndian(|v|, 8) + v
  }

  /** A field is self-delimiting. */
  lemma {:induction false} FieldDelimits(a: Bytes, b: Bytes, x: Bytes, y: Bytes)
    requires Short(a) && Short(b) && Field(a) + x == Field(b) + y
    ensures a == b && x == y
  {
    hide BigEndian, Pow256;
    var s, t := Field(a) + x, Field(b) + y;
    assert s[..8] == BigEndian(|a|, 8) && t[..8] == BigEndian(|b|, 8);
    EightBytes();
    BigEndianInjective(|a|, |b|, 8);
    assert s[8..8 + |a|] == a && t[8..8 + |b|] == b;
    assert s[8 + |a|..] == x && t[8 + |b|..] == y;
  }

  // ----- Entries ---------------------------------------------------------------

  datatype Body = DirectoryBody | FileBody(digest: Bytes) | SymlinkBody(target: Bytes)

  /** One walked node as the digest describes it, before its path is rendered. */
  datatype Row = Row(path: seq<Bytes>, executable: bool, body: Body)

  datatype Entry = Entry(path: Bytes, executable: bool, body: Body)

  // The ASCII bytes of "relay-reviewed-package-closure-v1", "symlink", "directory" and "file".
  const HEADER: Bytes := [114, 101, 108, 97, 121, 45, 114, 101, 118, 105, 101, 119, 101, 100, 45, 112, 97, 99, 107,
                          97, 103, 101, 45, 99, 108, 111, 115, 117, 114, 101, 45, 118, 49]
  const SYMLINK: Bytes := [115, 121, 109, 108, 105, 110, 107]
  const DIRECTORY: Bytes := [100, 105, 114, 101, 99, 116, 111, 114, 121]
  const FILE: Bytes := [102, 105, 108, 101]
  const SLASH: Byte := 47
  const DOT: Byte := 46

  function Tag(body: Body): Bytes {
    match body
    case SymlinkBody(_) => SYMLINK
    case DirectoryBody => DIRECTORY
    case FileBody(_) => FILE
  }

  /** The fourth field, which directories do not have. */
  function Payload(body: Body): Bytes {
    match body
    case SymlinkBody(target) => Field(target)
    case DirectoryBody => []
    case FileBody(digest) => Field(digest)
  }

  function Flag(executable: bool): Bytes {
    [if executable then 1 else 0]
  }

  function Encode(e: Entry): Bytes {
    Field(e.path) + Field(Flag(e.executable)) + Field(Tag(e.body)) + Payload(e.body)
  }

  function EncodeAll(es: seq<Entry>): Bytes {
    if es == [] then [] else Encode(es[0]) + EncodeAll(es[1..])
  }

  /** Everything the digest is updated with. */
  function Stream(es: seq<Entry>): Bytes {
    Field(HEADER) + EncodeAll(es)
  }

  predicate ShortEntry(e: Entry) {
    && Short(e.path)
    && (e.body.FileBody? ==> Short(e.body.digest))
    && (e.body.SymlinkBody? ==> Short(e.body.target))
  }

  lemma {:induction false} OneByteLength(n: Byte)
    ensures BigEndian(n, 8) == [0, 0, 0, 0, 0, 0, 0, n]
  {
    assert BigEndian(0, 2) == [0, 0];
    assert BigEndian(0, 4) == [0, 0, 0, 0];
    assert BigEndian(0, 6) == [0, 0, 0, 0, 0, 0];
    assert n / 256 == 0 && n % 256 == n;
  }

  /** The bytes of one entry, written out: an executable directory at the root. */
  lemma {:induction false} RootEntryBytes()
    ensures Encode(Entry([DOT], true, DirectoryBody)) ==
            [0, 0, 0, 0, 0, 0, 0, 1, 46] + [0, 0, 0, 0, 0, 0, 0, 1, 1] +
            [0, 0, 0, 0, 0, 0, 0, 9, 100, 105, 114, 101, 99, 116, 111, 114, 121]
  {
    hide BigEndian;
    OneByteLength(1);
    OneByteLength(9);
  }

  lemma {:induction false} TagsDiffer(a: Body, b: Body)
    requires Tag(a) == Tag(b)
    ensures a.DirectoryBody? == b.DirectoryBody? && a.FileBody? == b.FileBody?
  {
    assert |SYMLINK| == 7 && |DIRECTORY| == 9 && |FILE| == 4;
  }

  lemma {:induction false} PayloadDelimits(a: Body, b: Body, x: Bytes, y: Bytes)
    requires Tag(a) == Tag(b) && Payload(a) + x == Payload(b) + y
    requires a.FileBody? ==> Short(a.digest)
    requires a.SymlinkBody? ==> Short(a.target)
    requires b.FileBody? ==> Short(b.digest)
    requires b.SymlinkBody? ==> Short(b.target)
    ensures a == b && x == y
  {
    hide Field, Tag, Short;
    TagsDiffer(a, b);
    if a.DirectoryBody? {
      assert [] + x == x && [] + y == y;
    } else if a.FileBody? {
      FieldDelimits(a.digest, b.digest, x, y);
    } else {
      FieldDelimits(a.target, b.target, x, y);
    }
  }

  /** An encoded entry is self-delimiting, whether it has three fields or four. */
  lemma {:induction false} EncodeDelimits(a: Entry, b: Entry, x: Bytes, y: Bytes)
    requires ShortEntry(a) && ShortEntry(b) && Encode(a) + x == Encode(b) + y
    ensures a == b && x == y
  {
    hide Field, Tag, Payload;
    var a3, b3 := Payload(a.body) + x, Payload(b.body) + y;
    var a2, b2 := Field(Tag(a.body)) + a3, Field(Tag(b.body)) + b3;
    var a1, b1 := Field(Flag(a.executable)) + a2, Field(Flag(b.executable)) + b2;
    assert Encode(a) + x == Field(a.path) + a1;
    assert Encode(b) + y == Field(b.path) + b1;
    FieldDelimits(a.path, b.path, a1, b1);
    FieldDelimits(Flag(a.executable), Flag(b.executable), a2, b2);
    assert Flag(a.executable)[0] == Flag(b.executable)[0];
    ShortTag(a.body);
    ShortTag(b.body);
    FieldDelimits(Tag(a.body), Tag(b.body), a3, b3);
    PayloadDelimits(a.body, b.body, x, y);
  }

  lemma {:induction false} ShortTag(b: Body)
    ensures Short(Tag(b))
  {}

  /** The digest stream is injective on entry lists whose fields have lengths below 2^64. */
  lemma {:induction false} StreamInjective(a: seq<Entry>, b: seq<Entry>)
    requires Stream(a) == Stream(b)
    requires forall i :: 0 <= i < |a| ==> ShortEntry(a[i])
    requires forall i :: 0 <= i < |b| ==> ShortEntry(b[i])
    ensures a == b
  {
    hide Field, EncodeAll, ShortEntry;
    assert EncodeAll(a) == Stream(a)[|Field(HEADER)|..];
    assert EncodeAll(b) == Stream(b)[|Field(HEADER)|..];
    EncodeAllInjective(a, b);
  }

  lemma {:induction false} NonEmpty(es: seq<Entry>)
    ensures EncodeAll(es) == [] <==> es == []
  {
    hide Tag, Payload;
    if es != [] { assert |Encode(es[0])| > 0; }
  }

  lemma {:induction false} EncodeAllInjective(a: seq<Entry>, b: seq<Entry>)
    requires EncodeAll(a) == EncodeAll(b)
    requires forall i :: 0 <= i < |a| ==> ShortEntry(a[i])
    requires forall i :: 0 <= i < |b| ==> ShortEntry(b[i])
    ensures a == b
    decreases |a|
  {
    hide Field, Tag, Payload, ShortEntry;
    NonEmpty(a);
    NonEmpty(b);
    if a != [] {
      EncodeDelimits(a[0], b[0], EncodeAll(a[1..]), EncodeAll(b[1..]));
      EncodeAllInjective(a[1..], b[1..]);
      assert a == [a[0]] + a[1..] && b == [b[0]] + b[1..];
    }
  }

  // ----- Relative paths ----------------------------------------------------------

  predicate NameOk(name: Bytes) {
    name != [] && SLASH !in name && name != [DOT]
  }

  predicate PathOk(path: seq<Bytes>) {
    forall i :: 0 <= i < |path| ==> NameOk(path[i])
  }

  function JoinSlash(path: seq<Bytes>): Bytes
    requires path != []
  {
    if |path| == 1 then path[0] else path[0] + [SLASH] + JoinSlash(path[1..])
  }

  /** `"."` for the root, the POSIX spelling relative to the root otherwise. */
  function RelativePath(path: seq<Bytes>): Bytes {
    if path == [] then [DOT] else JoinSlash(path)
  }

  function FirstSlash(s: Bytes): nat {
    if s == [] || s[0] == SLASH then 0 else 1 + FirstSlash(s[1..])
  }

  lemma {:induction false} FirstSlashAfter(a: Bytes, x: Bytes)
    requires SLASH !in a && (x == [] || x[0] == SLASH)
    ensures FirstSlash(a + x) == |a|
  {
    if a == [] {
      assert a + x == x;
    } else {
      assert (a + x)[1..] == a[1..] + x;
      FirstSlashAfter(a[1..], x);
    }
  }

  lemma {:induction false} SlashDelimits(a: Bytes, b: Bytes, x: Bytes, y: Bytes)
    requires SLASH !in a && SLASH !in b && a + x == b + y
    requires x == [] || x[0] == SLASH
    requires y == [] || y[0] == SLASH
    ensures a == b && x == y
  {
    FirstSlashAfter(a, x);
    FirstSlashAfter(b, y);
    var s, t := a + x, b + y;
    assert s[..|a|] == a && t[..|b|] == b && s[|a|..] == x && t[|b|..] == y;
  }

  /** What follows the first name of a printed path. */
  function Behind(path: seq<Bytes>): Bytes
    requires path != []
  {
    if |path| == 1 then [] else [SLASH] + JoinSlash(path[1..])
  }

  lemma {:induction false} JoinSlashStep(path: seq<Bytes>)
    requires path != []
    ensures JoinSlash(path) == path[0] + Behind(path)
    ensures Behind(path) == [] <==> |path| == 1
    ensures |path| > 1 ==> Behind(path)[0] == SLASH && Behind(path)[1..] == JoinSlash(path[1..])
  {}

  lemma {:induction false} JoinSlashInjective(p: seq<Bytes>, q: seq<Bytes>)
    requires p != [] && q != [] && PathOk(p) && PathOk(q) && JoinSlash(p) == JoinSlash(q)
    ensures p == q
    decreases |p|
  {
    hide JoinSlash, Behind;
    JoinSlashStep(p);
    JoinSlashStep(q);
    SlashDelimits(p[0], q[0], Behind(p), Behind(q));
    if |p| > 1 {
      JoinSlashInjective(p[1..], q[1..]);
    }
    assert p == [p[0]] + p[1..] && q == [q[0]] + q[1..];
  }

  lemma {:induction false} RelativePathInjective(p: seq<Bytes>, q: seq<Bytes>)
    requires PathOk(p) && PathOk(q) && RelativePath(p) == RelativePath(q)
    ensures p == q
  {
    if p != [] && q != [] {
      JoinSlashInjective(p, q);
    } else if p != [] {
      NotDot(p);
    } else if q != [] {
      NotDot(q);
    }
  }

  lemma {:induction false} NotDot(p: seq<Bytes>)
    requires p != [] && PathOk(p)
    ensures JoinSlash(p) != [DOT]
  {
    if |p| > 1 {
      assert |JoinSlash(p)| >= 2;
    }
  }

  // ----- From a tree to its stream -------------------------------------------------

  predicate Supported(t: Tree)
    decreases Size(t), 0
  {
    match t.kind
    case Directory(children) => SupportedAll(children)
    case Special => false
    case _ => true
  }

  predicate SupportedAll(ts: seq<Tree>)
    decreases SizeAll(ts), 1
  {
    ts == [] || (Supported(ts[0]) && SupportedAll(ts[1..]))
  }

  function BodyOf(hash: Bytes -> Bytes, t: Tree): Body
    requires !t.kind.Special?
  {
    match t.kind
    case Directory(_) => DirectoryBody
    case File(content) => FileBody(hash(content))
    case Symlink(target) => SymlinkBody(target)
  }

  function RowOf(hash: Bytes -> Bytes, item: Item): Row
    requires !item.node.kind.Special?
  {
    Row(item.path, item.node.executable, BodyOf(hash, item.node))
  }

  function EntryOf(row: Row): Entry {
    Entry(RelativePath(row.path), row.executable, row.body)
  }

  /** The rows of a walk up to its first unsupported item, or that item's path. */
  function Rows(hash: Bytes -> Bytes, items: seq<Item>): Result<seq<Row>, seq<Bytes>> {
    if items == [] then Ok([])
    else if items[0].node.kind.Special? then Err(items[0].path)
    else
      match Rows(hash, items[1..])
      case Err(path) => Err(path)
      case Ok(rest) => Ok([RowOf(hash, items[0])] + rest)
  }

  function EntriesOf(rows: seq<Row>): (es: seq<Entry>)
    ensures |es| == |rows|
    ensures forall i :: 0 <= i < |rows| ==> es[i] == EntryOf(rows[i])
  {
    if rows == [] then [] else [EntryOf(rows[0])] + EntriesOf(rows[1..])
  }

  /** The digest input of a tree. */
  function DigestInput(hash: Bytes -> Bytes, root: Tree): Result<Bytes, seq<Bytes>> {
    match Rows(hash, PreOrder([], root))
    case Err(path) => Err(path)
    case Ok(rows) => Ok(Stream(EntriesOf(rows)))
  }

  /** `closure_digest`: update the digest entry by entry, stopping at an unsupported one. */
  method ClosureDigest(hash: Bytes -> Bytes, root: Tree) returns (r: Result<Bytes, seq<Bytes>>)
    ensures r == DigestInput(hash, root)
  {
    hide PreOrder, Field, Encode, RelativePath;
    var items := Walk(root);
    var digest := Field(HEADER);
    ghost var done: seq<Row> := [];
    assert items[0..] == items;
    PrependNothing(Rows(hash, items));
    for index := 0 to |items|
      invariant digest == Field(HEADER) + EncodeAll(EntriesOf(done))
      invariant Rows(hash, items) == Prepend(done, Rows(hash, items[index..]))
    {
      var item := items[index];
      if item.node.kind.Special? {
        return Err(item.path);
      }
      var row := RowOf(hash, item);
      assert items[index..][1..] == items[index + 1..];
      EncodeAppend(done, row);
      PrependStep(done, row, Rows(hash, items[index + 1..]));
      digest := digest + Encode(EntryOf(row));
      done := done + [row];
    }
    assert items[|items|..] == [];
    assert done + [] == done;
    r := Ok(digest);
  }

  ghost function Prepend(rows: seq<Row>, r: Result<seq<Row>, seq<Bytes>>): Result<seq<Row>, seq<Bytes>> {
    match r
    case Ok(rest) => Ok(rows + rest)
    case Err(path) => Err(path)
  }

  lemma {:induction false} PrependNothing(r: Result<seq<Row>, seq<Bytes>>)
    ensures Prepend([], r) == r
  {
    if r.Ok? { assert [] + r.value == r.value; }
  }

  lemma {:induction false} PrependStep(rows: seq<Row>, row: Row, r: Result<seq<Row>, seq<Bytes>>)
    ensures Prepend(rows, Prepend([row], r)) == Prepend(rows + [row], r)
  {
    if r.Ok? { assert rows + ([row] + r.value) == rows + [row] + r.value; }
  }

  lemma {:induction false} EncodeAppend(rows: seq<Row>, row: Row)
    ensures EncodeAll(EntriesOf(rows + [row])) == EncodeAll(EntriesOf(rows)) + Encode(EntryOf(row))
  {
    hide Encode, RelativePath;
    if rows == [] {
      assert rows + [row] == [row];
      assert EntriesOf([row]) == [EntryOf(row)];
      assert [EntryOf(row)][1..] == [];
    } else {
      assert (rows + [row])[1..] == rows[1..] + [row];
      EncodeAppend(rows[1..], row);
      assert EntriesOf(rows + [row]) == [EntryOf(rows[0])] + EntriesOf(rows[1..] + [row]);
      assert ([EntryOf(rows[0])] + EntriesOf(rows[1..] + [row]))[1..] == EntriesOf(rows[1..] + [row]);
      assert EntriesOf(rows)[1..] == EntriesOf(rows[1..]);
    }
  }

  // ----- Equal streams mean equal trees ----------------------------------------------

  /**
   What the digest is meant to identify: a tree with its directories in name order and its
   file contents replaced by their digests.
   */
  datatype Canon = Canon(executable: bool, body: Body, children: seq<Named>)
  datatype Named = Named(name: Bytes, tree: Canon)

  function CanonOf(hash: Bytes -> Bytes, t: Tree): Canon
    requires Supported(t)
    decreases Size(t), 0
  {
    match t.kind
    case Directory(children) =>
      SupportedPermutation(children, SortByName(children));
      Canon(t.executable, DirectoryBody, CanonAll(hash, SortByName(children)))
    case File(content) => Canon(t.executable, FileBody(hash(content)), [])
    case Symlink(target) => Canon(t.executable, SymlinkBody(target), [])
  }

  function CanonAll(hash: Bytes -> Bytes, ts: seq<Tree>): seq<Named>
    requires SupportedAll(ts)
    decreases SizeAll(ts), 1
  {
    if ts == [] then [] else [Named(ts[0].name, CanonOf(hash, ts[0]))] + CanonAll(hash, ts[1..])
  }

  lemma {:induction false} SupportedAllIff(ts: seq<Tree>)
    ensures SupportedAll(ts) <==> forall t :: t in ts ==> Supported(t)
  {
    if ts != [] {
      SupportedAllIff(ts[1..]);
      assert ts[0] in ts;
      assert forall t :: t in ts <==> t == ts[0] || t in ts[1..];
    }
  }

  lemma {:induction false} SupportedPermutation(a: seq<Tree>, b: seq<Tree>)
    requires multiset(a) == multiset(b)
    ensures SupportedAll(a) == SupportedAll(b)
  {
    SupportedAllIff(a);
    SupportedAllIff(b);
    assert forall t :: t in a <==> t in multiset(a);
    assert forall t :: t in b <==> t in multiset(b);
  }

  /** The rows of a supported tree, in the order of the walk. */
  function TreeRows(hash: Bytes -> Bytes, path: seq<Bytes>, t: Tree): (rows: seq<Row>)
    requires Supported(t)
    ensures rows != [] && rows[0] == Row(path, t.executable, BodyOf(hash, t))
    decreases Size(t), 0
  {
    [Row(path, t.executable, BodyOf(hash, t))] +
    match t.kind
    case Directory(children) =>
      SupportedPermutation(children, SortByName(children));
      ForestRows(hash, path, SortByName(children))
    case _ => []
  }

  function ForestRows(hash: Bytes -> Bytes, path: seq<Bytes>, ts: seq<Tree>): (rows: seq<Row>)
    requires SupportedAll(ts)
    ensures ts == [] <==> rows == []
    ensures ts != [] ==> rows[0].path == path + [ts[0].name]
    decreases SizeAll(ts), 1
  {
    if ts == [] then []
    else TreeRows(hash, path + [ts[0].name], ts[0]) + ForestRows(hash, path, ts[1..])
  }

  /** The next row is not inside `path`. */
  predicate Outside(path: seq<Bytes>, rows: seq<Row>) {
    rows == [] || !(|path| < |rows[0].path| && rows[0].path[..|path|] == path)
  }

  /** A walk can be read back: its rows determine the tree and where it ends. */
  lemma {:induction false} RowsDetermine(hash: Bytes -> Bytes, path: seq<Bytes>, a: Tree, b: Tree, x: seq<Row>,
      y: seq<Row>)
    requires Supported(a) && Supported(b)
    requires TreeRows(hash, path, a) + x == TreeRows(hash, path, b) + y
    requires Outside(path, x) && Outside(path, y)
    ensures CanonOf(hash, a) == CanonOf(hash, b) && x == y
    decreases Size(a), 0
  {
    hide SortByName, CanonAll, ForestRows, Supported, SupportedAll, Outside;
    var s, t := TreeRows(hash, path, a) + x, TreeRows(hash, path, b) + y;
    FirstRow(hash, path, a);
    FirstRow(hash, path, b);
    assert s[0] == TreeRows(hash, path, a)[0] && t[0] == TreeRows(hash, path, b)[0];
    if a.kind.Directory? {
      var ca, cb := SortByName(a.kind.children), SortByName(b.kind.children);
      DirectoryRows(hash, path, a);
      DirectoryRows(hash, path, b);
      assert s[1..] == ForestRows(hash, path, ca) + x;
      assert t[1..] == ForestRows(hash, path, cb) + y;
      ForestDetermines(hash, path, ca, cb, x, y);
    } else {
      LeafRows(hash, path, a);
      LeafRows(hash, path, b);
      assert s[1..] == x && t[1..] == y;
    }
  }

  /** The first row of a tree tells its kind. */
  lemma {:induction false} FirstRow(hash: Bytes -> Bytes, path: seq<Bytes>, t: Tree)
    requires Supported(t)
    ensures var rows := TreeRows(hash, path, t);
            && rows != [] && rows[0].executable == t.executable
            && rows[0].body == (if t.kind.Directory? then DirectoryBody else BodyOf(hash, t))
            && (rows[0].body == DirectoryBody <==> t.kind.Directory?)
  {
    if t.kind.Directory? {
      DirectoryRows(hash, path, t);
    } else {
      LeafRows(hash, path, t);
    }
  }

  lemma {:induction false} DirectoryRows(hash: Bytes -> Bytes, path: seq<Bytes>, t: Tree)
    requires Supported(t) && t.kind.Directory?
    ensures SupportedAll(SortByName(t.kind.children))
    ensures TreeRows(hash, path, t) ==
            [Row(path, t.executable, DirectoryBody)] + ForestRows(hash, path, SortByName(t.kind.children))
    ensures CanonOf(hash, t) == Canon(t.executable, DirectoryBody, CanonAll(hash, SortByName(t.kind.children)))
    ensures SizeAll(SortByName(t.kind.children)) < Size(t)
  {
    SupportedPermutation(t.kind.children, SortByName(t.kind.children));
  }

  lemma {:induction false} LeafRows(hash: Bytes -> Bytes, path: seq<Bytes>, t: Tree)
    requires Supported(t) && !t.kind.Directory?
    ensures TreeRows(hash, path, t) == [Row(path, t.executable, BodyOf(hash, t))]
    ensures CanonOf(hash, t) == Canon(t.executable, BodyOf(hash, t), [])
  {}

  lemma {:induction false} ForestDetermines(hash: Bytes -> Bytes, path: seq<Bytes>, a: seq<Tree>, b: seq<Tree>,
      x: seq<Row>, y: seq<Row>)
    requires SupportedAll(a) && SupportedAll(b)
    requires ForestRows(hash, path, a) + x == ForestRows(hash, path, b) + y
    requires Outside(path, x) && Outside(path, y)
    ensures CanonAll(hash, a) == CanonAll(hash, b) && x == y
    decreases SizeAll(a), 1
  {
    hide CanonOf, TreeRows, Supported;
    var ra, rb := ForestRows(hash, path, a), ForestRows(hash, path, b);
    FirstInside(path, a, ra, x);
    FirstInside(path, b, rb, y);
    if a != [] {
      var p := path + [a[0].name];
      assert path + [b[0].name] == p;
      assert a[0].name == p[|path|] == b[0].name;
      var xa, yb := ForestRows(hash, path, a[1..]) + x, ForestRows(hash, path, b[1..]) + y;
      assert ra + x == TreeRows(hash, p, a[0]) + xa;
      assert rb + y == TreeRows(hash, p, b[0]) + yb;
      OutsideDeeper(hash, path, a[0].name, a[1..], x);
      OutsideDeeper(hash, path, b[0].name, b[1..], y);
      RowsDetermine(hash, p, a[0], b[0], xa, yb);
      ForestDetermines(hash, path, a[1..], b[1..], x, y);
    } else {
      assert ra + x == x && rb + y == y;
    }
  }

  /** The rows of a forest begin inside its directory exactly when the forest is not empty. */
  lemma {:induction false} FirstInside(path: seq<Bytes>, ts: seq<Tree>, rows: seq<Row>, rest: seq<Row>)
    requires ts == [] <==> rows == []
    requires ts != [] ==> rows[0].path == path + [ts[0].name]
    requires Outside(path, rest)
    ensures ts == [] <==> Outside(path, rows + rest)
    ensures ts != [] ==> rows + rest != [] && (rows + rest)[0].path == path + [ts[0].name]
  {
    if ts == [] { assert rows + rest == rest; }
  }

  lemma {:induction false} LongerPrefix(path: seq<Bytes>, name: Bytes, q: seq<Bytes>)
    ensures |path| + 1 < |q| && q[..|path| + 1] == path + [name] ==> q[..|path|] == path
  {
    if |path| + 1 < |q| {
      assert q[..|path| + 1][..|path|] == q[..|path|];
    }
  }

  lemma {:induction false} OutsideDeeper(hash: Bytes -> Bytes, path: seq<Bytes>, name: Bytes, ts: seq<Tree>,
      rest: seq<Row>)
    requires SupportedAll(ts) && Outside(path, rest)
    ensures Outside(path + [name], ForestRows(hash, path, ts) + rest)
  {
    hide TreeRows, Supported;
    var rows := ForestRows(hash, path, ts);
    FirstInside(path, ts, rows, rest);
    if ts == [] && rest != [] {
      assert rows + rest == rest;
      LongerPrefix(path, name, rest[0].path);
    }
  }

  // ----- The digest laws ---------------------------------------------------------------

  /** Every name below the root can be part of a rendered path. */
  predicate NamesOk(t: Tree)
    decreases Size(t), 0
  {
    t.kind.Directory? ==> AllNamesOk(t.kind.children)
  }

  predicate AllNamesOk(ts: seq<Tree>)
    decreases SizeAll(ts), 1
  {
    ts == [] || (NameOk(ts[0].name) && NamesOk(ts[0]) && AllNamesOk(ts[1..]))
  }

  lemma {:induction false} AllNamesOkIff(ts: seq<Tree>)
    ensures AllNamesOk(ts) <==> forall t :: t in ts ==> NameOk(t.name) && NamesOk(t)
  {
    hide NamesOk, NameOk;
    if ts != [] {
      AllNamesOkIff(ts[1..]);
      assert forall t :: t in ts <==> t == ts[0] || t in ts[1..];
    }
  }

  lemma {:induction false} AllNamesOkPermutation(a: seq<Tree>, b: seq<Tree>)
    requires multiset(a) == multiset(b)
    ensures AllNamesOk(a) == AllNamesOk(b)
  {
    AllNamesOkIff(a);
    AllNamesOkIff(b);
    assert forall t :: t in a <==> t in multiset(a);
    assert forall t :: t in b <==> t in multiset(b);
  }

  lemma {:induction false} RowPathsOk(hash: Bytes -> Bytes, path: seq<Bytes>, t: Tree)
    requires Supported(t) && NamesOk(t) && PathOk(path)
    ensures forall i :: 0 <= i < |TreeRows(hash, path, t)| ==> PathOk(TreeRows(hash, path, t)[i].path)
    decreases Size(t), 0
  {
    hide NameOk, PathOk, ForestRows;
    if t.kind.Directory? {
      DirectoryRows(hash, path, t);
      AllNamesOkPermutation(t.kind.children, SortByName(t.kind.children));
      ForestPathsOk(hash, path, SortByName(t.kind.children));
    }
  }

  lemma {:induction false} ForestPathsOk(hash: Bytes -> Bytes, path: seq<Bytes>, ts: seq<Tree>)
    requires SupportedAll(ts) && AllNamesOk(ts) && PathOk(path)
    ensures forall i :: 0 <= i < |ForestRows(hash, path, ts)| ==> PathOk(ForestRows(hash, path, ts)[i].path)
    decreases SizeAll(ts), 1
  {
    hide NameOk, TreeRows, Supported, NamesOk;
    if ts != [] {
      RowPathsOk(hash, path + [ts[0].name], ts[0]);
      ForestPathsOk(hash, path, ts[1..]);
    }
  }

  /** The rows the digest is built from are the rows of the tree, or the walk meets an unsupported node. */
  lemma {:induction false} RowsOfWalk(hash: Bytes -> Bytes, path: seq<Bytes>, t: Tree)
    ensures var r := Rows(hash, PreOrder(path, t));
            (r.Ok? <==> Supported(t)) && (Supported(t) ==> r.value == TreeRows(hash, path, t))
    decreases Size(t), 0
  {
    hide SortByName, PreOrderAll, ForestRows, Supported, SupportedAll;
    var items := PreOrder(path, t);
    SupportedNode(t);
    if t.kind.Directory? {
      assert items[1..] == PreOrderAll(path, SortByName(t.kind.children));
      SupportedPermutation(t.kind.children, SortByName(t.kind.children));
      RowsOfForest(hash, path, SortByName(t.kind.children));
    } else {
      assert items[1..] == [];
    }
  }

  lemma {:induction false} SupportedNode(t: Tree)
    ensures Supported(t) <==> !t.kind.Special? && (t.kind.Directory? ==> SupportedAll(t.kind.children))
  {}

  lemma {:induction false} RowsOfForest(hash: Bytes -> Bytes, path: seq<Bytes>, ts: seq<Tree>)
    ensures var r := Rows(hash, PreOrderAll(path, ts));
            (r.Ok? <==> SupportedAll(ts)) && (SupportedAll(ts) ==> r.value == ForestRows(hash, path, ts))
    decreases SizeAll(ts), 1
  {
    hide PreOrder, TreeRows, Supported, Rows;
    if ts == [] {
      RowsEmpty(hash);
    } else {
      var p := path + [ts[0].name];
      RowsOfWalk(hash, p, ts[0]);
      RowsOfForest(hash, path, ts[1..]);
      RowsAppend(hash, PreOrder(p, ts[0]), PreOrderAll(path, ts[1..]));
    }
  }

  lemma {:induction false} RowsEmpty(hash: Bytes -> Bytes)
    ensures Rows(hash, []) == Ok([])
  {}

  lemma {:induction false} RowsAppend(hash: Bytes -> Bytes, a: seq<Item>, b: seq<Item>)
    ensures Rows(hash, a + b) ==
            if Rows(hash, a).Ok? then Prepend(Rows(hash, a).value, Rows(hash, b)) else Rows(hash, a)
  {
    if a == [] {
      assert a + b == b;
      PrependNothing(Rows(hash, b));
    } else if !a[0].node.kind.Special? {
      assert (a + b)[1..] == a[1..] + b;
      RowsAppend(hash, a[1..], b);
      var ra := Rows(hash, a[1..]);
      if ra.Ok? && Rows(hash, b).Ok? {
        assert [RowOf(hash, a[0])] + (ra.value + Rows(hash, b).value) == [RowOf(hash, a[0])] + ra.value +
          Rows(hash, b).value;
      }
    }
  }

  ghost predicate Fits(hash: Bytes -> Bytes, t: Tree)
    requires Supported(t)
  {
    forall i :: 0 <= i < |TreeRows(hash, [], t)| ==> ShortEntry(EntryOf(TreeRows(hash, [], t)[i]))
  }

  /** Item `k` is the first that the digest does not support. */
  predicate FirstSpecial(items: seq<Item>, k: nat) {
    k < |items| && items[k].node.kind.Special? && forall j :: 0 <= j < k ==> !items[j].node.kind.Special?
  }

  /** The first unsupported item is at this path. */
  ghost predicate StopsAt(items: seq<Item>, path: seq<Bytes>) {
    exists k: nat :: FirstSpecial(items, k) && items[k].path == path
  }

  lemma {:induction false} RowsStop(hash: Bytes -> Bytes, items: seq<Item>, path: seq<Bytes>)
    ensures Rows(hash, items).Err? && Rows(hash, items).error == path <==> StopsAt(items, path)
    decreases |items|
  {
    hide RowOf;
    if items != [] {
      var rest := items[1..];
      RowsStop(hash, rest, path);
      if items[0].node.kind.Special? {
        assert FirstSpecial(items, 0);
      } else {
        if k: nat :| FirstSpecial(rest, k) && rest[k].path == path {
          assert FirstSpecial(items, k + 1) && items[k + 1] == rest[k];
        }
        if k: nat :| FirstSpecial(items, k) && items[k].path == path {
          assert FirstSpecial(rest, k - 1) && items[k] == rest[k - 1];
        }
      }
    }
  }

  /** A digest is refused exactly for the first unsupported entry of the walk. */
  lemma {:induction false} DigestStops(hash: Bytes -> Bytes, t: Tree, path: seq<Bytes>)
    ensures DigestInput(hash, t).Err? && DigestInput(hash, t).error == path <==> StopsAt(PreOrder([], t), path)
  {
    hide Rows, PreOrder, Stream, StopsAt;
    RowsStop(hash, PreOrder([], t), path);
  }

  /** Exactly the trees without unsupported entries have a digest. */
  lemma {:induction false} DigestDefined(hash: Bytes -> Bytes, t: Tree)
    ensures DigestInput(hash, t).Ok? <==> Supported(t)
  {
    hide TreeRows, PreOrder, Supported, Rows;
    RowsOfWalk(hash, [], t);
  }

  /**
   The digest identifies the tree: for trees with proper names and fields below 2^64, two
   digest inputs are equal if and only if the trees agree on every name, executable bit, kind,
   link target and content digest, whatever order their directories are listed in.
   */
  lemma {:induction false} DigestIdentifiesTree(hash: Bytes -> Bytes, a: Tree, b: Tree)
    requires Supported(a) && Supported(b) && NamesOk(a) && NamesOk(b) && Fits(hash, a) && Fits(hash, b)
    ensures DigestInput(hash, a) == DigestInput(hash, b) <==> CanonOf(hash, a) == CanonOf(hash, b)
  {
    hide TreeRows, PreOrder, Supported, Stream, CanonOf, NamesOk, RelativePath, Rows;
    RowsOfWalk(hash, [], a);
    RowsOfWalk(hash, [], b);
    var ra, rb := TreeRows(hash, [], a), TreeRows(hash, [], b);
    if DigestInput(hash, a) == DigestInput(hash, b) {
      StreamInjective(EntriesOf(ra), EntriesOf(rb));
      RowPathsOk(hash, [], a);
      RowPathsOk(hash, [], b);
      EntriesDetermineRows(ra, rb);
      assert ra + [] == rb + [];
      RowsDetermine(hash, [], a, b, [], []);
    }
    if CanonOf(hash, a) == CanonOf(hash, b) {
      CanonDeterminesRows(hash, [], a, b);
    }
  }

  lemma {:induction false} EntriesDetermineRows(a: seq<Row>, b: seq<Row>)
    requires EntriesOf(a) == EntriesOf(b)
    requires forall i :: 0 <= i < |a| ==> PathOk(a[i].path)
    requires forall i :: 0 <= i < |b| ==> PathOk(b[i].path)
    ensures a == b
  {
    hide RelativePath, PathOk;
    forall i | 0 <= i < |a| ensures a[i] == b[i] {
      assert EntriesOf(a)[i] == EntriesOf(b)[i];
      RelativePathInjective(a[i].path, b[i].path);
    }
  }

  lemma {:induction false} CanonDeterminesRows(hash: Bytes -> Bytes, path: seq<Bytes>, a: Tree, b: Tree)
    requires Supported(a) && Supported(b) && CanonOf(hash, a) == CanonOf(hash, b)
    ensures TreeRows(hash, path, a) == TreeRows(hash, path, b)
    decreases Size(a), 0
  {
    hide SortByName, CanonAll, ForestRows, SupportedAll, Supported;
    NodeCanon(hash, a);
    NodeCanon(hash, b);
    if a.kind.Directory? {
      DirectoryRows(hash, path, a);
      DirectoryRows(hash, path, b);
      CanonDeterminesForest(hash, path, SortByName(a.kind.children), SortByName(b.kind.children));
    } else {
      LeafRows(hash, path, a);
      LeafRows(hash, path, b);
    }
  }

  lemma {:induction false} NodeCanon(hash: Bytes -> Bytes, t: Tree)
    requires Supported(t)
    ensures CanonOf(hash, t).body == BodyOf(hash, t) && CanonOf(hash, t).executable == t.executable
    ensures BodyOf(hash, t).DirectoryBody? <==> t.kind.Directory?
  {}

  lemma {:induction false} CanonDeterminesForest(hash: Bytes -> Bytes, path: seq<Bytes>, a: seq<Tree>, b: seq<Tree>)
    requires SupportedAll(a) && SupportedAll(b) && CanonAll(hash, a) == CanonAll(hash, b)
    ensures ForestRows(hash, path, a) == ForestRows(hash, path, b)
    decreases SizeAll(a), 1
  {
    hide CanonOf, TreeRows, Supported;
    var ca, cb := CanonAll(hash, a), CanonAll(hash, b);
    if a != [] {
      assert b != [];
      assert ca[0] == Named(a[0].name, CanonOf(hash, a[0])) && cb[0] == Named(b[0].name, CanonOf(hash, b[0]));
      assert ca[1..] == CanonAll(hash, a[1..]) && cb[1..] == CanonAll(hash, b[1..]);
      CanonDeterminesRows(hash, path + [a[0].name], a[0], b[0]);
      CanonDeterminesForest(hash, path, a[1..], b[1..]);
    } else {
      assert b == [];
    }
  }
}
