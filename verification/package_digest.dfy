/** The content digest of a package tree: sorted names and contents, each behind an eight-byte
    little-endian length. */
module PackageDigest {
  import opened Bytes
  import opened Sorting

  type Tree = map<string, seq<byte>>

  /** `int.to_bytes(width, "little")`. */
  function LittleEndian(v: nat, width: nat): (b: seq<byte>)
    ensures |b| == width
  {
    if width == 0 then [] else [(v % 256) as byte] + LittleEndian(v / 256, width - 1)
  }

  lemma {:induction false} LittleEndianInjective(v: nat, u: nat, width: nat)
    requires v < Pow256(width) && u < Pow256(width) && LittleEndian(v, width) == LittleEndian(u, width)
    ensures v == u
  {
    if width > 0 {
      var a, b := LittleEndian(v, width), LittleEndian(u, width);
      assert a[0] == b[0] && a[1..] == LittleEndian(v / 256, width - 1) && b[1..] == LittleEndian(u / 256, width - 1);
      LittleEndianInjective(v / 256, u / 256, width - 1);
    }
  }

  function Sized(field: seq<byte>): seq<byte> {
    LittleEndian(|field|, 8) + field
  }

  lemma SizedInjective(a: seq<byte>, x: seq<byte>, b: seq<byte>, y: seq<byte>)
    requires |a| < Pow256(8) && |b| < Pow256(8) && Sized(a) + x == Sized(b) + y
    ensures a == b && x == y
  {
    hide LittleEndian;
    var la, lb := LittleEndian(|a|, 8), LittleEndian(|b|, 8);
    Assoc(la, a, x);
    Assoc(lb, b, y);
    SameHeads(la, a + x, lb, b + y);
    LittleEndianInjective(|a|, |b|, 8);
    SameHeads(a, x, b, y);
  }

  /** Names and contents in the order of `names`. */
  function Frames(utf8: string -> seq<byte>, files: Tree, names: seq<string>): seq<byte>
    requires forall x :: x in names ==> x in files
  {
    if names == [] then [] else
      Sized(utf8(names[0])) + (Sized(files[names[0]]) + Frames(utf8, files, names[1..]))
  }

  ghost function TreePreimage(utf8: string -> seq<byte>, files: Tree): seq<byte> {
    Frames(utf8, files, Sorted(files.Keys))
  }

  /** Nothing is longer than memory can hold. */
  predicate Fits(utf8: string -> seq<byte>, files: Tree) {
    forall x :: x in files ==> |utf8(x)| < Pow256(8) && |files[x]| < Pow256(8)
  }

  lemma {:induction false} FramesEmpty(utf8: string -> seq<byte>, files: Tree, names: seq<string>)
    requires forall x :: x in names ==> x in files
    ensures Frames(utf8, files, names) == [] <==> names == []
  {
    hide LittleEndian;
    if names != [] {
      assert |Sized(utf8(names[0]))| >= 8;
    }
  }

  lemma {:induction false} FramesInjective(utf8: string -> seq<byte>, a: Tree, xs: seq<string>, b: Tree, ys: seq<string>)
    requires forall x, y :: utf8(x) == utf8(y) ==> x == y
    requires (forall x :: x in xs ==> x in a) && forall y :: y in ys ==> y in b
    requires Fits(utf8, a) && Fits(utf8, b) && Frames(utf8, a, xs) == Frames(utf8, b, ys)
    ensures xs == ys && forall x :: x in xs ==> a[x] == b[x]
    decreases |xs|
  {
    hide Sized, Fits;
    FramesEmpty(utf8, a, xs);
    FramesEmpty(utf8, b, ys);
    if xs != [] {
      var x, y := xs[0], ys[0];
      FitsAt(utf8, a, x);
      FitsAt(utf8, b, y);
      var ra, rb := Frames(utf8, a, xs[1..]), Frames(utf8, b, ys[1..]);
      SizedInjective(utf8(x), Sized(a[x]) + ra, utf8(y), Sized(b[y]) + rb);
      SizedInjective(a[x], ra, b[y], rb);
      FramesInjective(utf8, a, xs[1..], b, ys[1..]);
      assert xs == [x] + xs[1..] && ys == [y] + ys[1..];
    }
  }

  lemma FitsAt(utf8: string -> seq<byte>, files: Tree, x: string)
    requires Fits(utf8, files) && x in files
    ensures |utf8(x)| < Pow256(8) && |files[x]| < Pow256(8)
  {
  }

  /** The preimage determines the tree: which names it has and what each holds. */
  lemma {:induction false} PreimageDeterminesTree(utf8: string -> seq<byte>, a: Tree, b: Tree)
    requires forall x, y :: utf8(x) == utf8(y) ==> x == y
    requires Fits(utf8, a) && Fits(utf8, b) && TreePreimage(utf8, a) == TreePreimage(utf8, b)
    ensures a == b
  {
    hide Frames, Fits;
    FramesInjective(utf8, a, Sorted(a.Keys), b, Sorted(b.Keys));
    assert forall x :: x in a.Keys <==> x in b.Keys;
    assert a.Keys == b.Keys;
  }

  method TreeDigest(sha: seq<byte> -> Bytes32, utf8: string -> seq<byte>, files: Tree) returns (digest: Bytes32)
    ensures digest == sha(TreePreimage(utf8, files))
  {
    hide LittleEndian, Lists, Ascending;
    var names := Sort(files.Keys);
    SortedInside(files);
    var h: seq<byte> := [];
    for i := 0 to |names|
      invariant forall x :: x in names ==> x in files
      invariant h + Frames(utf8, files, names[i..]) == Frames(utf8, files, names)
    {
      var name, data := names[i], files[names[i]];
      ghost var before := h;
      var encoded := utf8(name);
      h := h + LittleEndian(|encoded|, 8);
      h := h + encoded;
      h := h + LittleEndian(|data|, 8);
      h := h + data;
      assert names[i..][1..] == names[i + 1..] && names[i..][0] == name;
      OneFrame(before, LittleEndian(|encoded|, 8), encoded, LittleEndian(|data|, 8), data,
               Frames(utf8, files, names[i + 1..]));
    }
    assert h + [] == h;
    digest := sha(h);
  }

  lemma OneFrame(h: seq<byte>, a: seq<byte>, b: seq<byte>, c: seq<byte>, d: seq<byte>, rest: seq<byte>)
    ensures h + a + b + c + d + rest == h + ((a + b) + ((c + d) + rest))
  {
  }

  lemma SortedInside(files: Tree)
    ensures forall x :: x in Sorted(files.Keys) ==> x in files
  {
    hide Ascending;
    assert Lists(Sorted(files.Keys), files.Keys);
  }
}
