/** Lists of length-prefixed fields, as hashed and signed during enrollment. */
module Framing {
  import opened Bytes

  /** Every field behind its big-endian length. */
  function Fields(fs: seq<seq<byte>>, width: nat): seq<byte> {
    if fs == [] then [] else Prefixed(fs[0], width) + Fields(fs[1..], width)
  }

  ghost predicate Fit(fs: seq<seq<byte>>, width: nat) {
    forall i :: 0 <= i < |fs| ==> |fs[i]| < Pow256(width)
  }

  /** The concatenation determines the list, its length included. */
  lemma {:induction false} FieldsInjective(a: seq<seq<byte>>, b: seq<seq<byte>>, width: nat)
    requires width > 0 && Fit(a, width) && Fit(b, width) && Fields(a, width) == Fields(b, width)
    ensures a == b
    decreases |a|
  {
    OnlyNoFieldsAreEmpty(a, width);
    OnlyNoFieldsAreEmpty(b, width);
    if a != [] {
      PrefixedInjective(a[0], Fields(a[1..], width), b[0], Fields(b[1..], width), width);
      FieldsInjective(a[1..], b[1..], width);
      assert a == [a[0]] + a[1..] && b == [b[0]] + b[1..];
    }
  }

  lemma OnlyNoFieldsAreEmpty(fs: seq<seq<byte>>, width: nat)
    requires width > 0
    ensures Fields(fs, width) == [] <==> fs == []
  {
    if fs != [] {
      assert |Prefixed(fs[0], width)| >= width;
    }
  }

  /** The loop that feeds the hasher or extends the transcript. */
  method WriteFields(fs: seq<seq<byte>>, width: nat) returns (bytes: seq<byte>)
    ensures bytes == Fields(fs, width)
  {
    bytes := [];
    for i := 0 to |fs|
      invariant bytes + Fields(fs[i..], width) == Fields(fs, width)
    {
      ghost var before := bytes;
      bytes := bytes + BigEndian(|fs[i]|, width);
      bytes := bytes + fs[i];
      assert fs[i..][1..] == fs[i + 1..] && fs[i..][0] == fs[i];
      Assoc(before, BigEndian(|fs[i]|, width), fs[i]);
      Assoc(before, Prefixed(fs[i], width), Fields(fs[i + 1..], width));
    }
    assert bytes + [] == bytes;
  }
}
