// Reading a manifest back: from the byte stream to frames, from frames to
// records, and from the record list to the tree it describes.
module TreeDecoder {
  import opened Framing
  import opened EvidenceTree

  datatype Item =
    | DirItem(path: bytes, perm: uint32)
    | FileItem(path: bytes, perm: uint32, size: uint64, digest: Digest)

  datatype Summary =
    | Directory(perm: uint32, children: seq<Named>)
    | Leaf(perm: uint32, size: uint64, digest: Digest)

  datatype Named = Named(name: bytes, summary: Summary)

  /** What the manifest keeps of a tree: names, kinds, permissions, sizes and leaf digests. */
  function Summarize(disk: Disk, n: Node): Summary
    decreases n, 1
  {
    match n
    case Dir(perm, children) => Directory(perm, SummarizeAll(disk, children))
    case File(fp) => Leaf(fp.mode % 0x200, Unsigned64(fp.size), disk.Leaf(fp))
    case _ => Directory(0, [])
  }

  function SummarizeAll(disk: Disk, es: seq<Entry>): seq<Named>
    decreases es, 0
  {
    if es == [] then []
    else [Named(es[0].name, Summarize(disk, es[0].node))] + SummarizeAll(disk, es[1..])
  }

  // ----------------------------------------------------------------- records

  function Encode(item: Item): bytes {
    match item
    case DirItem(path, perm) => Record(RECORD_DIRECTORY, [path, U32(perm)])
    case FileItem(path, perm, size, digest) => Record(RECORD_FILE, [path, U32(perm), U64(size), digest])
  }

  function DecodeItem(record: bytes): Option<Item> {
    if record == [] then None
    else match ReadFields(record[1..])
      case None => None
      case Some(fs) =>
        if record[0] == RECORD_DIRECTORY && |fs| == 2 && |fs[1]| == 4 then
          Some(DirItem(fs[0], U32Value(fs[1])))
        else if record[0] == RECORD_FILE && |fs| == 4 && |fs[1]| == 4 && |fs[2]| == 8 && |fs[3]| == 32 then
          Some(FileItem(fs[0], U32Value(fs[1]), U64Value(fs[2]), fs[3]))
        else None
  }

  function EncodeAll(items: seq<Item>): seq<bytes> {
    if items == [] then [] else [Encode(items[0])] + EncodeAll(items[1..])
  }

  function DecodeAll(records: seq<bytes>): Option<seq<Item>> {
    if records == [] then Some([])
    else match DecodeItem(records[0])
      case None => None
      case Some(first) =>
        match DecodeAll(records[1..])
        case None => None
        case Some(others) => Some([first] + others)
  }

  // Room for the other fields of a record, so that its own length fits in 32 bits.
  const PATH_BOUND: int := LENGTH_BOUND - 0x80

  lemma {:induction false} RecordLength(kind: byte, fs: seq<bytes>)
    requires 0 < |fs| <= 4 && |fs[0]| < PATH_BOUND && forall f | f in fs[1..] :: |f| <= 32
    ensures Fits(fs) && |Record(kind, fs)| < LENGTH_BOUND
  {
    ShortFields(fs[1..]);
    assert fs == [fs[0]] + fs[1..];
  }

  lemma {:induction false} DecodeItemInverse(item: Item)
    requires |item.path| < PATH_BOUND
    ensures DecodeItem(Encode(item)) == Some(item)
    ensures |Encode(item)| < LENGTH_BOUND
  {
    U32RoundTrip(item.perm);
    var fs := if item.DirItem? then [item.path, U32(item.perm)]
              else [item.path, U32(item.perm), U64(item.size), item.digest];
    if item.FileItem? { U64RoundTrip(item.size); }
    var kind := if item.DirItem? then RECORD_DIRECTORY else RECORD_FILE;
    assert Encode(item) == Record(kind, fs);
    RecordLength(kind, fs);
    assert Encode(item)[1..] == Fields(fs);
    ReadFieldsInverse(fs);
  }

  lemma {:induction false} ShortFields(fs: seq<bytes>)
    requires forall f | f in fs :: |f| <= 32
    ensures |Fields(fs)| <= 36 * |fs|
  {
    if fs != [] { ShortFields(fs[1..]); }
  }

  lemma {:induction false} DecodeAllInverse(items: seq<Item>)
    requires forall item | item in items :: |item.path| < PATH_BOUND
    ensures DecodeAll(EncodeAll(items)) == Some(items)
    ensures Fits(EncodeAll(items))
  {
    hide Encode, DecodeItem;
    if items != [] {
      DecodeItemInverse(items[0]);
      DecodeAllInverse(items[1..]);
      assert items == [items[0]] + items[1..];
    }
  }

  lemma {:induction false} EncodeAppend(a: seq<Item>, b: seq<Item>)
    ensures EncodeAll(a + b) == EncodeAll(a) + EncodeAll(b)
  {
    if a == [] {
      assert a + b == b;
    } else {
      assert (a + b)[1..] == a[1..] + b;
      EncodeAppend(a[1..], b);
    }
  }

  // ------------------------------------------------------------- record lists

  function Items(disk: Disk, n: Node, path: bytes): seq<Item>
    decreases n, 1
  {
    match n
    case Dir(perm, children) => [DirItem(path, perm)] + ItemsAll(disk, children, path)
    case File(fp) => [FileItem(path, fp.mode % 0x200, Unsigned64(fp.size), disk.Leaf(fp))]
    case _ => []
  }

  function ItemsAll(disk: Disk, es: seq<Entry>, parent: bytes): seq<Item>
    decreases es, 0
  {
    if es == [] then []
    else Items(disk, es[0].node, Join(parent, es[0].name)) + ItemsAll(disk, es[1..], parent)
  }

  lemma {:induction false} ManifestIsEncoded(l: Limits, disk: Disk, n: Node, path: bytes, depth: nat)
    requires Acceptable(l, n, depth)
    ensures Manifest(disk, n, path) == EncodeAll(Items(disk, n, path))
    decreases n, 1
  {
    if n.Dir? {
      ManifestAllIsEncoded(l, disk, n.children, path, depth);
      EncodeAppend([DirItem(path, n.perm)], ItemsAll(disk, n.children, path));
    }
  }

  lemma {:induction false} ManifestAllIsEncoded(l: Limits, disk: Disk, es: seq<Entry>, parent: bytes, depth: nat)
    requires AllAcceptable(l, es, depth)
    ensures ManifestAll(disk, es, parent) == EncodeAll(ItemsAll(disk, es, parent))
    decreases es, 0
  {
    if es != [] {
      ManifestIsEncoded(l, disk, es[0].node, Join(parent, es[0].name), depth + 1);
      ManifestAllIsEncoded(l, disk, es[1..], parent, depth);
      EncodeAppend(Items(disk, es[0].node, Join(parent, es[0].name)), ItemsAll(disk, es[1..], parent));
    }
  }

  // ------------------------------------------------------------ the tree again

  /** p is inside the directory at path. */
  predicate Inside(path: bytes, p: bytes) {
    path == [] || (path < p && p[|path|] == SLASH)
  }

  /** The last component of a path that lies directly in a directory. */
  function ChildName(parent: bytes, p: bytes): (name: Option<bytes>)
    ensures name.Some? ==> Inside(parent, p) && p == Join(parent, name.value)
  {
    if !Inside(parent, p) then None
    else
      var name := if parent == [] then p else p[|parent| + 1..];
      if SLASH in name || name == [] then None else Some(name)
  }

  function ParseNode(items: seq<Item>): (r: Option<(Summary, seq<Item>)>)
    ensures r.Some? ==> |r.value.1| < |items|
    decreases |items|, 0
  {
    if items == [] then None
    else match items[0]
      case FileItem(_, perm, size, digest) => Some((Leaf(perm, size, digest), items[1..]))
      case DirItem(path, perm) =>
        match ParseChildren(items[1..], path)
        case None => None
        case Some((children, rest)) => Some((Directory(perm, children), rest))
  }

  function ParseChildren(items: seq<Item>, parent: bytes): (r: Option<(seq<Named>, seq<Item>)>)
    ensures r.Some? ==> |r.value.1| <= |items|
    decreases |items|, 1
  {
    if items == [] || ChildName(parent, items[0].path).None? then Some(([], items))
    else match ParseNode(items)
      case None => None
      case Some((summary, rest)) =>
        match ParseChildren(rest, parent)
        case None => None
        case Some((others, left)) => Some(([Named(ChildName(parent, items[0].path).value, summary)] + others, left))
  }

  function Decode(domain: bytes, stream: bytes): Option<Summary> {
    match ReadFields(stream)
    case None => None
    case Some(frames) =>
      if frames == [] || frames[0] != domain then None
      else match DecodeAll(frames[1..])
        case None => None
        case Some(items) =>
          match ParseNode(items)
          case Some((summary, rest)) => if rest == [] then Some(summary) else None
          case None => None
  }

  /** What follows a directory's records lies outside it. */
  predicate Outside(path: bytes, rest: seq<Item>) {
    rest == [] || !Inside(path, rest[0].path)
  }

  lemma ChildOfJoin(parent: bytes, name: bytes)
    requires ValidName(name)
    ensures ChildName(parent, Join(parent, name)) == Some(name)
  {
    if parent != [] {
      var p := Join(parent, name);
      assert p[..|parent|] == parent && p[|parent|] == SLASH && p[|parent| + 1..] == name;
    }
  }

  lemma SiblingIsOutside(parent: bytes, name: bytes, name': bytes)
    requires ValidName(name) && ValidName(name')
    ensures !Inside(Join(parent, name), Join(parent, name'))
  {
    var p, p' := Join(parent, name), Join(parent, name');
    var skip := if parent == [] then 0 else |parent| + 1;
    assert p'[skip..] == name' && |p| == skip + |name|;
    if |p| < |p'| {
      assert p'[|p|] == name'[|name|];
    }
  }

  lemma InsideChildIsInsideParent(parent: bytes, name: bytes, p: bytes)
    requires ValidName(name) && Inside(Join(parent, name), p)
    ensures Inside(parent, p)
  {
    if parent != [] {
      var child := Join(parent, name);
      assert p[..|child|] == child && child[..|parent|] == parent;
      assert p[..|parent|] == p[..|child|][..|parent|];
      assert p[|parent|] == child[|parent|];
    }
  }

  lemma {:induction false} ParseInverse(l: Limits, disk: Disk, n: Node, path: bytes, depth: nat, rest: seq<Item>)
    requires Acceptable(l, n, depth) && Outside(path, rest)
    ensures ParseNode(Items(disk, n, path) + rest) == Some((Summarize(disk, n), rest))
    decreases n, 1
  {
    var items := Items(disk, n, path) + rest;
    match n
    case File(_) =>
      assert items[1..] == rest;
    case Dir(perm, children) =>
      assert items[1..] == ItemsAll(disk, children, path) + rest;
      ParseChildrenInverse(l, disk, children, path, depth, rest);
  }

  lemma {:induction false} ParseChildrenInverse(
    l: Limits, disk: Disk, es: seq<Entry>, parent: bytes, depth: nat, rest: seq<Item>)
    requires AllAcceptable(l, es, depth) && Outside(parent, rest)
    ensures ParseChildren(ItemsAll(disk, es, parent) + rest, parent) == Some((SummarizeAll(disk, es), rest))
    decreases es, 0
  {
    hide Inside, Join;
    if es == [] {
      assert ItemsAll(disk, es, parent) + rest == rest;
    } else {
      var child := Join(parent, es[0].name);
      var head, tail := Items(disk, es[0].node, child), ItemsAll(disk, es[1..], parent) + rest;
      assert ItemsAll(disk, es, parent) + rest == head + tail;
      ChildOfJoin(parent, es[0].name);
      if es[1..] != [] {
        SiblingIsOutside(parent, es[0].name, es[1].name);
        FirstItem(l, disk, es[1].node, Join(parent, es[1].name), depth + 1);
      } else {
        assert tail == rest;
        if rest != [] && Inside(child, rest[0].path) { InsideChildIsInsideParent(parent, es[0].name, rest[0].path); }
      }
      FirstItem(l, disk, es[0].node, child, depth + 1);
      ParseInverse(l, disk, es[0].node, child, depth + 1, tail);
      ParseChildrenInverse(l, disk, es[1..], parent, depth, rest);
    }
  }

  lemma {:induction false} FirstItem(l: Limits, disk: Disk, n: Node, path: bytes, depth: nat)
    requires Acceptable(l, n, depth)
    ensures Items(disk, n, path) != [] && Items(disk, n, path)[0].path == path
  {}

  /** Every path is short enough for its record to carry a 32-bit length. */
  ghost predicate Addressable(disk: Disk, root: Node) {
    forall item | item in Items(disk, root, []) :: |item.path| < PATH_BOUND
  }

  /** The stream of a completed walk decodes to the tree's summary. */
  lemma {:induction false} ManifestDecodes(l: Limits, disk: Disk, domain: bytes, root: Node)
    requires WithinLimits(l, root) && Addressable(disk, root) && |domain| < LENGTH_BOUND
    ensures Decode(domain, Stream(disk, domain, root)) == Some(Summarize(disk, root))
  {
    var items := Items(disk, root, []);
    ManifestIsEncoded(l, disk, root, [], 0);
    DecodeAllInverse(items);
    var frames := [domain] + EncodeAll(items);
    ReadFieldsInverse(frames);
    assert frames[1..] == EncodeAll(items);
    ParseInverse(l, disk, root, [], 0, []);
    assert items + [] == items;
  }

  /** Two completed walks hashed the same bytes only if they saw the same tree. */
  lemma {:induction false} EqualStreamsEqualTrees(
    l: Limits, l': Limits, disk: Disk, disk': Disk, domain: bytes, root: Node, root': Node)
    requires WithinLimits(l, root) && Addressable(disk, root) && |domain| < LENGTH_BOUND
    requires WithinLimits(l', root') && Addressable(disk', root')
    requires Stream(disk, domain, root) == Stream(disk', domain, root')
    ensures Summarize(disk, root) == Summarize(disk', root')
  {
    ManifestDecodes(l, disk, domain, root);
    ManifestDecodes(l', disk', domain, root');
  }
}
