/** The byte stream that identifies a read-only cache tree. */
module CacheTree {
  import opened Bytes
  import opened Wrappers

  datatype Metadata = Metadata(mode: nat, uid: nat, gid: nat)

  /** A static tree; the entries of a directory are in the order of their names. */
  datatype Node =
    | Directory(meta: Metadata, entries: seq<Entry>)
    | File(meta: Metadata, content: seq<byte>)
    | Special(meta: Metadata)

  datatype Entry = Entry(name: seq<byte>, node: Node)

  /** `mode & 0o222`. */
  predicate Writable(m: Metadata) {
    m.mode / 2 % 2 == 1 || m.mode / 16 % 2 == 1 || m.mode / 128 % 2 == 1
  }

  const NUL: byte := 0
  const COLON: byte := 58
  const SLASH: byte := 47
  const DOT: byte := 46

  /** The names a file system allows. */
  predicate IsName(name: seq<byte>) {
    name != [] && NUL !in name && SLASH !in name && name != [DOT] && name != [DOT, DOT]
  }

  ghost predicate WellNamed(n: Node) {
    n.Directory? ==>
      && (forall i :: 0 <= i < |n.entries| ==> IsName(n.entries[i].name) && WellNamed(n.entries[i].node))
      && (forall i, j :: 0 <= i < j < |n.entries| ==> n.entries[i].name != n.entries[j].name)
  }

  // ----- The stream as a list of items -----

  /** What is recorded of one directory or file. */
  datatype Item =
    | DirItem(path: seq<byte>, meta: Metadata)
    | FileItem(path: seq<byte>, meta: Metadata, content: seq<byte>)

  /** `str(Path(relative) / name)`. */
  function Below(relative: seq<byte>, name: seq<byte>): seq<byte> {
    if relative == [DOT] then name else relative + [SLASH] + name
  }

  function Items(n: Node, relative: seq<byte>): seq<Item>
    decreases n, 0
  {
    match n
    case Directory(meta, entries) => [DirItem(relative, meta)] + EntryItems(entries, relative)
    case File(meta, content) => [FileItem(relative, meta, content)]
    case Special(_) => []
  }

  function EntryItems(entries: seq<Entry>, relative: seq<byte>): seq<Item>
    decreases entries, 1
  {
    if entries == [] then []
    else Items(entries[0].node, Below(relative, entries[0].name)) + EntryItems(entries[1..], relative)
  }

  /** Only unwritable directories and regular files. */
  predicate ReadOnly(n: Node)
    decreases n, 0
  {
    !Writable(n.meta) && !n.Special? && (n.Directory? ==> AllReadOnly(n.entries))
  }

  predicate AllReadOnly(entries: seq<Entry>)
    decreases entries, 1
  {
    entries != [] ==> ReadOnly(entries[0].node) && AllReadOnly(entries[1..])
  }

  // ----- The bytes of an item -----

  function Digits(n: nat, base: nat): (s: seq<byte>)
    requires 2 <= base <= 10
    ensures s != [] && forall i :: 0 <= i < |s| ==> 48 <= s[i] < 58
    decreases n
  {
    if n < base then [(48 + n) as byte] else Digits(n / base, base) + [(48 + n % base) as byte]
  }

  function Value(s: seq<byte>, base: nat): int {
    if s == [] then 0 else Value(s[..|s| - 1], base) * base + s[|s| - 1] as int - 48
  }

  lemma Quotient(n: nat, base: nat)
    requires base > 0
    ensures n / base * base + n % base == n
  {
  }

  lemma {:induction false} DigitsHaveValue(n: nat, base: nat)
    requires 2 <= base <= 10
    ensures Value(Digits(n, base), base) == n
    decreases n
  {
    if n < base {
      assert Digits(n, base)[..0] == [];
    } else {
      DigitsHaveValue(n / base, base);
      var s := Digits(n, base);
      assert s[..|s| - 1] == Digits(n / base, base);
      Quotient(n, base);
    }
  }

  lemma DigitsDiffer(a: nat, b: nat, base: nat)
    requires 2 <= base <= 10 && Digits(a, base) == Digits(b, base)
    ensures a == b
  {
    DigitsHaveValue(a, base);
    DigitsHaveValue(b, base);
  }

  /** A field, its separator, and what follows. */
  function Field(separator: byte, a: seq<byte>, rest: seq<byte>): seq<byte> {
    a + [separator] + rest
  }

  lemma FieldAppends(separator: byte, a: seq<byte>, x: seq<byte>, y: seq<byte>)
    ensures Field(separator, a, x) + y == Field(separator, a, x + y)
  {
    assert a + [separator] + x + y == a + [separator] + (x + y);
  }

  /** A field that ends at its first separator can be split off in one way only. */
  lemma FieldSplits(separator: byte, a: seq<byte>, x: seq<byte>, b: seq<byte>, y: seq<byte>)
    requires separator !in a && separator !in b && Field(separator, a, x) == Field(separator, b, y)
    ensures a == b && x == y
  {
    var s, t := Field(separator, a, x), Field(separator, b, y);
    assert s[|a|] == separator && t[|b|] == separator;
    assert forall i :: 0 <= i < |a| ==> s[i] == a[i];
    assert forall i :: 0 <= i < |b| ==> t[i] == b[i];
    assert |a| == |b|;
    assert a == s[..|a|] && b == t[..|a|];
    assert x == s[|a| + 1..] && y == t[|a| + 1..];
  }

  /** `f"{mode:o}:{uid}:{gid}"`. */
  function Owner(m: Metadata): (s: seq<byte>)
    ensures NUL !in s
  {
    Field(COLON, Digits(m.mode, 8), Field(COLON, Digits(m.uid, 10), Digits(m.gid, 10)))
  }

  /** `f"{mode:o}:{uid}:{gid}:{size}"`. */
  function OwnerAndSize(m: Metadata, size: nat): (s: seq<byte>)
    ensures NUL !in s
  {
    Field(COLON, Digits(m.mode, 8), Field(COLON, Digits(m.uid, 10), Field(COLON, Digits(m.gid, 10), Digits(size, 10))))
  }

  lemma OwnersDiffer(m: Metadata, n: Metadata)
    requires Owner(m) == Owner(n)
    ensures m == n
  {
    FieldSplits(COLON, Digits(m.mode, 8), Field(COLON, Digits(m.uid, 10), Digits(m.gid, 10)),
                Digits(n.mode, 8), Field(COLON, Digits(n.uid, 10), Digits(n.gid, 10)));
    FieldSplits(COLON, Digits(m.uid, 10), Digits(m.gid, 10), Digits(n.uid, 10), Digits(n.gid, 10));
    DigitsDiffer(m.mode, n.mode, 8);
    DigitsDiffer(m.uid, n.uid, 10);
    DigitsDiffer(m.gid, n.gid, 10);
  }

  lemma OwnersAndSizesDiffer(m: Metadata, k: nat, n: Metadata, l: nat)
    requires OwnerAndSize(m, k) == OwnerAndSize(n, l)
    ensures m == n && k == l
  {
    var u, v := Field(COLON, Digits(m.gid, 10), Digits(k, 10)), Field(COLON, Digits(n.gid, 10), Digits(l, 10));
    FieldSplits(COLON, Digits(m.mode, 8), Field(COLON, Digits(m.uid, 10), u),
                Digits(n.mode, 8), Field(COLON, Digits(n.uid, 10), v));
    FieldSplits(COLON, Digits(m.uid, 10), u, Digits(n.uid, 10), v);
    FieldSplits(COLON, Digits(m.gid, 10), Digits(k, 10), Digits(n.gid, 10), Digits(l, 10));
    DigitsDiffer(m.mode, n.mode, 8);
    DigitsDiffer(m.uid, n.uid, 10);
    DigitsDiffer(m.gid, n.gid, 10);
    DigitsDiffer(k, l, 10);
  }

  /** The bytes of an item, and what follows. */
  function Put(item: Item, rest: seq<byte>): seq<byte> {
    match item
    case DirItem(path, meta) => Field(NUL, [68], Field(NUL, path, Field(NUL, Owner(meta), rest)))
    case FileItem(path, meta, content) =>
      Field(NUL, [70], Field(NUL, path, Field(NUL, OwnerAndSize(meta, |content|), Field(NUL, content, rest))))
  }

  function EncodeAll(items: seq<Item>): seq<byte> {
    if items == [] then [] else Put(items[0], EncodeAll(items[1..]))
  }

  lemma PutAppends(item: Item, x: seq<byte>, y: seq<byte>)
    ensures Put(item, x) + y == Put(item, x + y)
  {
    match item
    case DirItem(path, meta) =>
      FieldAppends(NUL, Owner(meta), x, y);
      FieldAppends(NUL, path, Field(NUL, Owner(meta), x), y);
      FieldAppends(NUL, [68], Field(NUL, path, Field(NUL, Owner(meta), x)), y);
    case FileItem(path, meta, content) =>
      var size := OwnerAndSize(meta, |content|);
      FieldAppends(NUL, content, x, y);
      FieldAppends(NUL, size, Field(NUL, content, x), y);
      FieldAppends(NUL, path, Field(NUL, size, Field(NUL, content, x)), y);
      FieldAppends(NUL, [70], Field(NUL, path, Field(NUL, size, Field(NUL, content, x))), y);
  }

  lemma {:induction false} EncodeAllOfMore(a: seq<Item>, b: seq<Item>)
    ensures EncodeAll(a + b) == EncodeAll(a) + EncodeAll(b)
  {
    if a == [] {
      assert a + b == b;
    } else {
      EncodeAllOfMore(a[1..], b);
      EncodeOneMore(a[0], a[1..], b);
      assert a == [a[0]] + a[1..];
    }
  }

  lemma EncodeOneMore(item: Item, a: seq<Item>, b: seq<Item>)
    requires EncodeAll(a + b) == EncodeAll(a) + EncodeAll(b)
    ensures EncodeAll([item] + a + b) == EncodeAll([item] + a) + EncodeAll(b)
  {
    assert [item] + a + b == [item] + (a + b);
    EncodeAllCons(item, a);
    EncodeAllCons(item, a + b);
    PutAppends(item, EncodeAll(a), EncodeAll(b));
  }

  lemma EncodeAllCons(item: Item, rest: seq<Item>)
    ensures EncodeAll([item] + rest) == Put(item, EncodeAll(rest))
  {
    assert ([item] + rest)[1..] == rest;
  }

  // ----- The bytes determine the items -----

  lemma DirSplits(e: Item, f: Item, x: seq<byte>, y: seq<byte>)
    requires e.DirItem? && f.DirItem? && NUL !in e.path && NUL !in f.path && Put(e, x) == Put(f, y)
    ensures e == f && x == y
  {
    var u, v := Field(NUL, Owner(e.meta), x), Field(NUL, Owner(f.meta), y);
    FieldSplits(NUL, [68], Field(NUL, e.path, u), [68], Field(NUL, f.path, v));
    FieldSplits(NUL, e.path, u, f.path, v);
    FieldSplits(NUL, Owner(e.meta), x, Owner(f.meta), y);
    OwnersDiffer(e.meta, f.meta);
  }

  lemma ContentsSplit(a: seq<byte>, x: seq<byte>, b: seq<byte>, y: seq<byte>)
    requires |a| == |b| && Field(NUL, a, x) == Field(NUL, b, y)
    ensures a == b && x == y
  {
    assert a == Field(NUL, a, x)[..|a|] && b == Field(NUL, b, y)[..|a|];
    assert x == Field(NUL, a, x)[|a| + 1..] && y == Field(NUL, b, y)[|a| + 1..];
  }

  lemma FileSplits(e: Item, f: Item, x: seq<byte>, y: seq<byte>)
    requires e.FileItem? && f.FileItem? && NUL !in e.path && NUL !in f.path && Put(e, x) == Put(f, y)
    ensures e == f && x == y
  {
    var k, l := OwnerAndSize(e.meta, |e.content|), OwnerAndSize(f.meta, |f.content|);
    var u, v := Field(NUL, e.content, x), Field(NUL, f.content, y);
    FieldSplits(NUL, [70], Field(NUL, e.path, Field(NUL, k, u)), [70], Field(NUL, f.path, Field(NUL, l, v)));
    FieldSplits(NUL, e.path, Field(NUL, k, u), f.path, Field(NUL, l, v));
    FieldSplits(NUL, k, u, l, v);
    OwnersAndSizesDiffer(e.meta, |e.content|, f.meta, |f.content|);
    ContentsSplit(e.content, x, f.content, y);
  }

  /** No item's bytes begin another's: an item can be split off a stream in one way only. */
  lemma ItemSplits(e: Item, f: Item, x: seq<byte>, y: seq<byte>)
    requires NUL !in e.path && NUL !in f.path && Put(e, x) == Put(f, y)
    ensures e == f && x == y
  {
    assert Put(e, x)[0] == (if e.DirItem? then 68 else 70) && Put(f, y)[0] == (if f.DirItem? then 68 else 70);
    if e.DirItem? {
      DirSplits(e, f, x, y);
    } else {
      FileSplits(e, f, x, y);
    }
  }

  ghost predicate NoNul(items: seq<Item>) {
    forall i :: 0 <= i < |items| ==> NUL !in items[i].path
  }

  lemma {:induction false} ItemsDetermined(a: seq<Item>, b: seq<Item>)
    requires NoNul(a) && NoNul(b) && EncodeAll(a) == EncodeAll(b)
    ensures a == b
  {
    if a != [] && b != [] {
      ItemSplits(a[0], b[0], EncodeAll(a[1..]), EncodeAll(b[1..]));
      ItemsDetermined(a[1..], b[1..]);
      assert a == [a[0]] + a[1..] && b == [b[0]] + b[1..];
    }
  }

  lemma ItemsHaveNoNul(n: Node, relative: seq<byte>)
    requires WellNamed(n) && NUL !in relative
    ensures NoNul(Items(n, relative))
    decreases n, 0
  {
    if n.Directory? {
      EntryItemsHaveNoNul(n.entries, relative);
    }
  }

  lemma EntryItemsHaveNoNul(entries: seq<Entry>, relative: seq<byte>)
    requires forall i :: 0 <= i < |entries| ==> IsName(entries[i].name) && WellNamed(entries[i].node)
    requires NUL !in relative
    ensures NoNul(EntryItems(entries, relative))
    decreases entries, 1
  {
    if entries != [] {
      ItemsHaveNoNul(entries[0].node, Below(relative, entries[0].name));
      EntryItemsHaveNoNul(entries[1..], relative);
    }
  }

  // ----- The digest input -----

  function Header(): seq<byte> {
    [97, 109, 100, 103, 112, 117, 45, 115, 105, 109, 46, 114, 101, 97, 100, 45, 111, 110, 108, 121, 45, 99, 97, 99, 104,
     101, 45, 116, 114, 101, 101, 46, 118, 49, NUL]
  }

  /** What `_cache_tree_identity` feeds to the digest. */
  function Stream(root: Node): seq<byte> {
    Header() + EncodeAll(Items(root, [DOT]))
  }

  /**
   Two trees feed the same bytes only if they list the same paths, kinds,
   modes, owners, sizes and contents, in the same order.
   */
  lemma StreamDeterminesItems(a: Node, b: Node)
    requires WellNamed(a) && WellNamed(b) && Stream(a) == Stream(b)
    ensures Items(a, [DOT]) == Items(b, [DOT])
  {
    ItemsHaveNoNul(a, [DOT]);
    ItemsHaveNoNul(b, [DOT]);
    var x, y := EncodeAll(Items(a, [DOT])), EncodeAll(Items(b, [DOT]));
    assert x == Stream(a)[|Header()|..] && y == Stream(b)[|Header()|..];
    ItemsDetermined(Items(a, [DOT]), Items(b, [DOT]));
  }

  // ----- The items determine the tree -----

  /** The path lies below the given one. */
  predicate Under(relative: seq<byte>, path: seq<byte>) {
    relative == [DOT] || relative + [SLASH] <= path
  }

  /** What follows in the list does not belong below the given path. */
  predicate Outside(relative: seq<byte>, rest: seq<Item>) {
    rest == [] || !Under(relative, rest[0].path)
  }

  lemma FirstItem(n: Node, path: seq<byte>)
    requires ReadOnly(n)
    ensures Items(n, path) != [] && Items(n, path)[0].path == path
  {
  }

  lemma BelowIsUnder(relative: seq<byte>, name: seq<byte>)
    requires IsName(name)
    ensures Under(relative, Below(relative, name)) && Below(relative, name) != [DOT]
  {
  }

  lemma NamesDiffer(relative: seq<byte>, a: seq<byte>, b: seq<byte>)
    requires Below(relative, a) == Below(relative, b)
    ensures a == b
  {
    if relative != [DOT] {
      var n := |relative| + 1;
      assert a == Below(relative, a)[n..] && b == Below(relative, b)[n..];
    }
  }

  /** A path below a sibling is not below this entry. */
  lemma SiblingsAreOutside(relative: seq<byte>, a: seq<byte>, b: seq<byte>)
    requires IsName(a) && IsName(b) && a != b
    ensures !Under(Below(relative, a), Below(relative, b))
  {
    BelowIsUnder(relative, a);
    var p, q := Below(relative, a), Below(relative, b);
    var n := if relative == [DOT] then 0 else |relative| + 1;
    assert |p| == n + |a|;
    if |q| > |p| {
      assert q[|p|] == b[|p| - n] && (p + [SLASH])[|p|] == SLASH;
    }
  }

  lemma DeeperIsUnder(relative: seq<byte>, name: seq<byte>, path: seq<byte>)
    requires IsName(name) && Under(Below(relative, name), path)
    ensures Under(relative, path)
  {
    BelowIsUnder(relative, name);
    var p := Below(relative, name);
    if relative != [DOT] {
      assert relative + [SLASH] <= p;
      assert p <= path;
    }
  }

  ghost predicate WellListed(entries: seq<Entry>) {
    && AllReadOnly(entries)
    && (forall i :: 0 <= i < |entries| ==> IsName(entries[i].name) && WellNamed(entries[i].node))
    && (forall i, j :: 0 <= i < j < |entries| ==> entries[i].name != entries[j].name)
  }

  /** What follows the first entry's items is outside that entry. */
  lemma RestIsOutside(entries: seq<Entry>, relative: seq<byte>, rest: seq<Item>)
    requires entries != [] && WellListed(entries) && Outside(relative, rest)
    ensures Outside(Below(relative, entries[0].name), EntryItems(entries[1..], relative) + rest)
  {
    var name, left := entries[0].name, entries[1..];
    var follows := EntryItems(left, relative) + rest;
    if left != [] {
      var next := entries[1];
      assert left[0] == next && AllReadOnly(left);
      FirstItem(next.node, Below(relative, next.name));
      assert follows[0].path == Below(relative, next.name);
      SiblingsAreOutside(relative, name, next.name);
    } else if rest != [] {
      assert follows == rest;
      if Under(Below(relative, name), rest[0].path) {
        DeeperIsUnder(relative, name, rest[0].path);
      }
    }
  }

  /** Two lists that start with nonempty parts start with the same item. */
  lemma HeadsMatch(s: seq<Item>, t: seq<Item>, u: seq<Item>, v: seq<Item>, x: seq<Item>, y: seq<Item>)
    requires s != [] && t != [] && s + u + x == t + v + y
    ensures s[0] == t[0]
    ensures s + (u + x) == t + (v + y)
    ensures s[1..] + u + x == t[1..] + v + y
  {
    var a, b := s + u + x, t + v + y;
    assert a[0] == s[0] && b[0] == t[0];
    assert a == s + (u + x) && b == t + (v + y);
    assert a[1..] == s[1..] + u + x && b[1..] == t[1..] + v + y;
  }

  function Head(n: Node, path: seq<byte>): Item
    requires !n.Special?
  {
    if n.Directory? then DirItem(path, n.meta) else FileItem(path, n.meta, n.content)
  }

  function Tail(n: Node, path: seq<byte>): seq<Item> {
    if n.Directory? then EntryItems(n.entries, path) else []
  }

  lemma ItemsInParts(n: Node, path: seq<byte>)
    requires !n.Special?
    ensures Items(n, path) == [Head(n, path)] + Tail(n, path)
  {
  }

  lemma TreeDetermined(a: Node, b: Node, relative: seq<byte>, x: seq<Item>, y: seq<Item>)
    requires ReadOnly(a) && ReadOnly(b) && WellNamed(a) && WellNamed(b)
    requires Outside(relative, x) && Outside(relative, y)
    requires Items(a, relative) + x == Items(b, relative) + y
    ensures a == b && x == y
    decreases a, 0
  {
    ItemsInParts(a, relative);
    ItemsInParts(b, relative);
    HeadsMatch([Head(a, relative)], [Head(b, relative)], Tail(a, relative), Tail(b, relative), x, y);
    var s, t := [Head(a, relative)][1..] + Tail(a, relative), [Head(b, relative)][1..] + Tail(b, relative);
    assert s == Tail(a, relative) && t == Tail(b, relative);
    if a.Directory? {
      EntriesDetermined(a.entries, b.entries, relative, x, y);
    } else {
      assert [] + x == x && [] + y == y;
    }
  }

  lemma NoEntries(entries: seq<Entry>, relative: seq<byte>, x: seq<Item>, y: seq<Item>)
    requires WellListed(entries) && Outside(relative, x) && x == EntryItems(entries, relative) + y
    ensures entries == []
  {
    if entries != [] {
      FirstItem(entries[0].node, Below(relative, entries[0].name));
      BelowIsUnder(relative, entries[0].name);
    }
  }

  lemma EntriesDetermined(es: seq<Entry>, fs: seq<Entry>, relative: seq<byte>, x: seq<Item>, y: seq<Item>)
    requires WellListed(es) && WellListed(fs) && Outside(relative, x) && Outside(relative, y)
    requires EntryItems(es, relative) + x == EntryItems(fs, relative) + y
    ensures es == fs && x == y
    decreases es, 1
  {
    if es == [] {
      assert [] + x == x;
      NoEntries(fs, relative, x, y);
      assert [] + y == y;
    } else if fs == [] {
      assert [] + y == y;
      NoEntries(es, relative, y, x);
    } else {
      var p, q := Below(relative, es[0].name), Below(relative, fs[0].name);
      var u, v := EntryItems(es[1..], relative), EntryItems(fs[1..], relative);
      FirstItem(es[0].node, p);
      FirstItem(fs[0].node, q);
      HeadsMatch(Items(es[0].node, p), Items(fs[0].node, q), u, v, x, y);
      NamesDiffer(relative, es[0].name, fs[0].name);
      RestIsOutside(es, relative, x);
      RestIsOutside(fs, relative, y);
      TreeDetermined(es[0].node, fs[0].node, p, u + x, v + y);
      EntriesDetermined(es[1..], fs[1..], relative, x, y);
      assert es == [es[0]] + es[1..] && fs == [fs[0]] + fs[1..];
    }
  }

  /**
   The stream is uniquely decodable: two read-only trees feed the same bytes to
   the digest only if they are the same tree.
   */
  lemma StreamDeterminesTree(a: Node, b: Node)
    requires ReadOnly(a) && ReadOnly(b) && WellNamed(a) && WellNamed(b)
    requires Stream(a) == Stream(b)
    ensures a == b
  {
    StreamDeterminesItems(a, b);
    TreeDetermined(a, b, [DOT], [], []);
  }

  class CacheDigest {
    var stream: seq<byte>

    constructor ()
      ensures stream == Header()
    {
      stream := Header();
    }

    method Update(bytes: seq<byte>)
      modifies this
      ensures stream == old(stream) + bytes
    {
      stream := stream + bytes;
    }

    method AddItem(item: Item)
      modifies this
      ensures stream == old(stream) + EncodeAll([item])
    {
      ghost var before := stream;
      match item {
        case DirItem(path, meta) =>
          Update([68, NUL]);
          Update(path);
          Update([NUL]);
          Update(Owner(meta));
          Update([NUL]);
          DirBytes(before, path, meta);
        case FileItem(path, meta, content) =>
          Update([70, NUL]);
          Update(path);
          Update([NUL]);
          Update(OwnerAndSize(meta, |content|));
          Update([NUL]);
          Update(content);
          Update([NUL]);
          FileBytes(before, path, meta, content);
      }
    }

    /** `add_directory`: it refuses writable and special entries anywhere below. */
    method AddDirectory(directory: Node, relative: seq<byte>) returns (ok: bool)
      requires directory.Directory?
      modifies this
      ensures ok <==> ReadOnly(directory)
      ensures ok ==> stream == old(stream) + EncodeAll(Items(directory, relative))
      decreases directory, 0
    {
      if Writable(directory.meta) {
        return false;
      }
      AddItem(DirItem(relative, directory.meta));
      var entries := directory.entries;
      ghost var done: seq<Item> := [DirItem(relative, directory.meta)];
      for i := 0 to |entries|
        invariant stream == old(stream) + EncodeAll(done)
        invariant Remaining(directory, relative, done, entries[i..])
      {
        var entry := entries[i];
        assert entries[i..][0] == entry && entries[i..][1..] == entries[i + 1..];
        RemainingStep(directory, relative, done, entries[i..]);
        var added := AddEntry(entry.node, Below(relative, entry.name));
        if !added {
          return false;
        }
        ghost var items := Items(entry.node, Below(relative, entry.name));
        EncodeAllOfMore(done, items);
        Regroup(old(stream), EncodeAll(done), EncodeAll(items));
        done := done + items;
      }
      RemainingNone(directory, relative, done, entries[|entries|..]);
      ok := true;
    }

    /** The body of its loop. */
    method AddEntry(node: Node, path: seq<byte>) returns (ok: bool)
      modifies this
      ensures ok <==> ReadOnly(node)
      ensures ok ==> stream == old(stream) + EncodeAll(Items(node, path))
      decreases node, 1
    {
      if Writable(node.meta) {
        return false;
      }
      if node.Directory? {
        ok := AddDirectory(node, path);
      } else if node.File? {
        AddItem(FileItem(path, node.meta, node.content));
        ok := true;
      } else {
        ok := false;
      }
    }
  }

  /** The items that are done and the entries that are left make up the directory. */
  ghost predicate Remaining(directory: Node, relative: seq<byte>, done: seq<Item>, left: seq<Entry>)
    requires directory.Directory?
  {
    && Items(directory, relative) == done + EntryItems(left, relative)
    && (ReadOnly(directory) <==> AllReadOnly(left))
  }

  lemma RemainingNone(directory: Node, relative: seq<byte>, done: seq<Item>, left: seq<Entry>)
    requires directory.Directory? && left == [] && Remaining(directory, relative, done, left)
    ensures Items(directory, relative) == done && ReadOnly(directory)
  {
    assert done + [] == done;
  }

  lemma Regroup(a: seq<byte>, b: seq<byte>, c: seq<byte>)
    ensures a + b + c == a + (b + c)
  {
  }

  lemma RemainingStep(directory: Node, relative: seq<byte>, done: seq<Item>, left: seq<Entry>)
    requires directory.Directory? && left != [] && Remaining(directory, relative, done, left)
    ensures ReadOnly(directory) ==> ReadOnly(left[0].node)
    ensures ReadOnly(left[0].node) ==>
              Remaining(directory, relative, done + Items(left[0].node, Below(relative, left[0].name)), left[1..])
  {
    EntriesInParts(left, relative);
    var items, rest := Items(left[0].node, Below(relative, left[0].name)), EntryItems(left[1..], relative);
    assert done + (items + rest) == done + items + rest;
  }

  lemma EntriesInParts(left: seq<Entry>, relative: seq<byte>)
    requires left != []
    ensures EntryItems(left, relative)
         == Items(left[0].node, Below(relative, left[0].name)) + EntryItems(left[1..], relative)
    ensures AllReadOnly(left) <==> ReadOnly(left[0].node) && AllReadOnly(left[1..])
  {
  }

  lemma DirBytes(before: seq<byte>, path: seq<byte>, meta: Metadata)
    ensures before + [68, NUL] + path + [NUL] + Owner(meta) + [NUL] == before + EncodeAll([DirItem(path, meta)])
  {
    var item := DirItem(path, meta);
    assert EncodeAll([item]) == Put(item, EncodeAll([]));
    assert Put(item, []) == [68, NUL] + path + [NUL] + Owner(meta) + [NUL];
  }

  lemma FileBytes(before: seq<byte>, path: seq<byte>, meta: Metadata, content: seq<byte>)
    ensures before + [70, NUL] + path + [NUL] + OwnerAndSize(meta, |content|) + [NUL] + content + [NUL]
         == before + EncodeAll([FileItem(path, meta, content)])
  {
    var item, size := FileItem(path, meta, content), OwnerAndSize(meta, |content|);
    assert EncodeAll([item]) == Put(item, EncodeAll([]));
    assert Put(item, []) == [70, NUL] + path + [NUL] + size + [NUL] + content + [NUL];
  }

  // ----- The stream as text -----

  function Ascii(text: string): (bs: seq<byte>)
    requires forall i :: 0 <= i < |text| ==> text[i] as int < 128
    ensures |bs| == |text| && forall i :: 0 <= i < |text| ==> bs[i] as int == text[i] as int
  {
    seq(|text|, i requires 0 <= i < |text| => text[i] as byte)
  }

  const TITLE: string := "amdgpu-sim.read-only-cache-tree.v1"

  lemma HeaderIsText()
    ensures Header() == Ascii(TITLE) + [NUL]
  {
    assert |TITLE| == 34 && |Header()| == 35;
  }

  /** Digits in a base, without a leading zero. */
  predicate IsNumeral(s: seq<byte>, base: nat, n: nat) {
    && s != [] && Value(s, base) == n && (|s| > 1 ==> s[0] != 48)
    && forall i :: 0 <= i < |s| ==> 48 <= s[i] as int < 48 + base
  }

  lemma {:induction false} DigitsAreSmall(n: nat, base: nat)
    requires 2 <= base <= 10
    ensures forall i :: 0 <= i < |Digits(n, base)| ==> 48 <= Digits(n, base)[i] as int < 48 + base
    decreases n
  {
    if n >= base {
      DigitsAreSmall(n / base, base);
      assert Digits(n, base) == Digits(n / base, base) + [(48 + n % base) as byte];
    }
  }

  lemma {:induction false} FirstDigit(n: nat, base: nat)
    requires 2 <= base <= 10
    ensures n > 0 ==> Digits(n, base)[0] != 48
    ensures n == 0 ==> Digits(n, base) == [48]
    decreases n
  {
    if n >= base {
      assert n / base > 0;
      FirstDigit(n / base, base);
      assert Digits(n, base)[0] == Digits(n / base, base)[0];
    }
  }

  lemma DigitsAreNumeral(n: nat, base: nat)
    requires 2 <= base <= 10
    ensures IsNumeral(Digits(n, base), base, n)
  {
    DigitsHaveValue(n, base);
    DigitsAreSmall(n, base);
    FirstDigit(n, base);
  }

  /** The mode in octal, then user and group in decimal. */
  lemma OwnerIsText(m: Metadata) returns (mode: seq<byte>, uid: seq<byte>, gid: seq<byte>)
    ensures IsNumeral(mode, 8, m.mode) && IsNumeral(uid, 10, m.uid) && IsNumeral(gid, 10, m.gid)
    ensures Owner(m) == mode + [COLON] + uid + [COLON] + gid
  {
    mode, uid, gid := Digits(m.mode, 8), Digits(m.uid, 10), Digits(m.gid, 10);
    DigitsAreNumeral(m.mode, 8);
    DigitsAreNumeral(m.uid, 10);
    DigitsAreNumeral(m.gid, 10);
    assert mode + [COLON] + (uid + [COLON] + gid) == mode + [COLON] + uid + [COLON] + gid;
  }

  lemma OwnerAndSizeIsText(m: Metadata, size: nat) returns (owner: seq<byte>, digits: seq<byte>)
    ensures owner == Owner(m) && IsNumeral(digits, 10, size)
    ensures OwnerAndSize(m, size) == owner + [COLON] + digits
  {
    owner, digits := Owner(m), Digits(size, 10);
    DigitsAreNumeral(size, 10);
    var mode, uid, gid := Digits(m.mode, 8), Digits(m.uid, 10), Digits(m.gid, 10);
    assert mode + [COLON] + (uid + [COLON] + (gid + [COLON] + digits))
        == mode + [COLON] + (uid + [COLON] + gid) + [COLON] + digits;
  }

  predicate HasWriteBit(digit: nat) {
    digit in {2, 3, 6, 7}
  }

  lemma DigitBit(d: nat)
    requires d < 8
    ensures d / 2 % 2 == 1 <==> HasWriteBit(d)
  {
  }

  lemma DivisionIs(n: nat, q: nat, unit: nat)
    requires unit > 0 && unit * q <= n < unit * (q + 1)
    ensures n / unit == q
  {
    var d := n / unit;
    Quotient(n, unit);
    if d < q {
      Product(unit, d + 1, q);
    } else if q < d {
      Product(unit, q + 1, d);
    }
  }

  lemma Product(unit: nat, a: nat, b: nat)
    requires a <= b
    ensures unit * a <= unit * b
  {
  }

  lemma HalvedDivision(n: nat, m: nat, below: nat, q: nat, unit: nat)
    requires unit > 0 && below < unit && n == unit * m + below && 2 * q <= m < 2 * q + 2
    ensures n / (2 * unit) == q
  {
    Product(unit, 2 * q, m);
    Product(unit, m + 1, 2 * q + 2);
    DivisionIs(n, q, 2 * unit);
  }

  /** The bit with this weight is the middle one of a digit. */
  lemma MiddleBit(n: nat, above: nat, digit: nat, below: nat, unit: nat)
    requires unit > 0 && digit < 8 && below < unit && n == unit * (8 * above + digit) + below
    ensures n / (2 * unit) % 2 == 1 <==> HasWriteBit(digit)
  {
    var q := 4 * above + digit / 2;
    HalvedDivision(n, 8 * above + digit, below, q, unit);
    DigitBit(digit);
  }

  /** Writable by the owner, the group or others. */
  lemma WritableBits(m: Metadata, high: nat, owner: nat, group: nat, others: nat)
    requires owner < 8 && group < 8 && others < 8 && m.mode == 512 * high + 64 * owner + 8 * group + others
    ensures Writable(m) <==> HasWriteBit(owner) || HasWriteBit(group) || HasWriteBit(others)
  {
    MiddleBit(m.mode, 64 * high + 8 * owner + group, others, 0, 1);
    MiddleBit(m.mode, 8 * high + owner, group, others, 8);
    MiddleBit(m.mode, high, owner, 8 * group + others, 64);
  }
}
