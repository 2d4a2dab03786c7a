/** Comparing runtime code while ignoring its metadata trailer and its immutable values. */
module Masking {
  import opened Addresses
  import opened Fingerprints
  import Sequences

  datatype Range = Range(start: int, length: int)

  const MASK: string := "??"

  /** An unreadable length fails both comparisons, and the text is kept. */
  function StripCborTrailer(hex: string): string {
    if |hex| < 6 then hex
    else
      match ParseHex(hex[|hex| - 4..])
      case None => hex
      case Some(n) => if n * 2 + 4 < |hex| then hex[..|hex| - (n * 2 + 4)] else hex
  }

  function Body(hex: string): string {
    if Has0x(hex) then hex[2..] else hex
  }

  /** Two digits per byte; an odd digit at the end is a byte of its own. */
  function Bytes(body: string): seq<string> {
    if body == "" then []
    else if |body| == 1 then [body]
    else [body[..2]] + Bytes(body[2..])
  }

  function Join(bytes: seq<string>): string {
    if bytes == [] then "" else bytes[0] + Join(bytes[1..])
  }

  predicate In(r: Range, i: int) {
    r.start <= i < r.start + r.length
  }

  predicate Covered(ranges: seq<Range>, i: int) {
    exists k :: 0 <= k < |ranges| && In(ranges[k], i)
  }

  function Masked(bytes: seq<string>, ranges: seq<Range>): (r: seq<string>)
    ensures |r| == |bytes|
  {
    seq(|bytes|, i requires 0 <= i < |bytes| => if Covered(ranges, i) then MASK else bytes[i])
  }

  method MaskInPlace(bytes: array<string>, ranges: seq<Range>)
    modifies bytes
    ensures bytes[..] == Masked(old(bytes[..]), ranges)
  {
    for k := 0 to |ranges|
      invariant bytes[..] == Masked(old(bytes[..]), ranges[..k])
    {
      var r := ranges[k];
      var i := 0;
      while i < r.length
        invariant 0 <= i && (i == 0 || i <= r.length)
        invariant forall j :: 0 <= j < bytes.Length ==>
                    bytes[j] == if Covered(ranges[..k], j) || r.start <= j < r.start + i then MASK else old(bytes[j])
      {
        var idx := r.start + i;
        if 0 <= idx < bytes.Length {
          bytes[idx] := MASK;
        }
        i := i + 1;
      }
      forall j | 0 <= j < bytes.Length
        ensures bytes[j] == if Covered(ranges[..k + 1], j) then MASK else old(bytes[j])
      {
        CoveredSnoc(ranges, k, j);
      }
    }
    assert ranges[..|ranges|] == ranges;
  }

  lemma CoveredSnoc(ranges: seq<Range>, k: nat, j: int)
    requires k < |ranges|
    ensures Covered(ranges[..k + 1], j) <==> Covered(ranges[..k], j) || In(ranges[k], j)
  {
    if m :| 0 <= m < k && In(ranges[..k][m], j) {
      assert In(ranges[..k + 1][m], j);
    }
    assert ranges[..k + 1][k] == ranges[k];
    assert forall m :: 0 <= m < k ==> ranges[..k + 1][m] == ranges[..k][m];
  }

  function MaskedText(hex: string, ranges: seq<Range>): string {
    "0x" + Join(Masked(Bytes(Body(hex)), ranges))
  }

  method MaskRanges(hex: string, ranges: seq<Range>) returns (r: string)
    ensures r == MaskedText(hex, ranges)
  {
    var split := Bytes(Body(hex));
    var bytes := new string[|split|](i requires 0 <= i < |split| => split[i]);
    assert bytes[..] == split;
    MaskInPlace(bytes, ranges);
    r := "0x" + Join(bytes[..]);
  }

  // ---------------------------------------------------------------- what is compared

  /** A trailer that announces its own length is cut off, as long as anything is left. */
  lemma CborStripped(code: string, trailer: string)
    requires code != "" && |trailer| >= 4 && |code| + |trailer| >= 6
    requires ParseHex(trailer[|trailer| - 4..]).Some? && |trailer| == ParseHex(trailer[|trailer| - 4..]).value * 2 + 4
    ensures StripCborTrailer(code + trailer) == code
  {
    assert (code + trailer)[|code + trailer| - 4..] == trailer[|trailer| - 4..];
    assert (code + trailer)[..|code|] == code;
  }

  /** Anything else stays: text that is too short, that does not end in a number, or that is all trailer. */
  lemma CborKept(hex: string)
    ensures StripCborTrailer(hex) == hex
       <==> |hex| < 6 || ParseHex(hex[|hex| - 4..]).None? || |hex| <= ParseHex(hex[|hex| - 4..]).value * 2 + 4
  {
  }

  /** Byte `i` is the pair of digits at `2 * i`. */
  function ByteOf(body: string, i: nat): string
    requires 2 * i < |body|
  {
    if 2 * i + 1 < |body| then [body[2 * i], body[2 * i + 1]] else [body[2 * i]]
  }

  lemma {:induction false} ByteAt(body: string, i: nat)
    requires 2 * i < |body|
    ensures i < |Bytes(body)| && Bytes(body)[i] == ByteOf(body, i)
  {
    if i > 0 {
      ByteAt(body[2..], i - 1);
      assert ByteOf(body[2..], i - 1) == ByteOf(body, i);
      assert Bytes(body)[i] == Bytes(body[2..])[i - 1];
    } else {
      assert |body| > 1 ==> body[..2] == [body[0], body[1]];
      assert |body| == 1 ==> body == [body[0]];
    }
  }

  lemma {:induction false} ByteCount(body: string)
    ensures |Bytes(body)| == (|body| + 1) / 2
  {
    if |body| > 1 {
      ByteCount(body[2..]);
    }
  }

  /** What is compared of code with a trailer: the bytes of the code. */
  lemma ComparedBytes(text: string, code: string, trailer: string)
    requires Lower(text) == "0x" + (code + trailer) && |trailer| >= 4
    requires ParseHex(trailer[|trailer| - 4..]).Some? && |trailer| == ParseHex(trailer[|trailer| - 4..]).value * 2 + 4
    ensures Bytes(Body(StripCborTrailer(Lower(text)))) == Bytes(code)
  {
    Sequences.Associates("0x", code, trailer);
    CborStripped("0x" + code, trailer);
    assert ("0x" + code)[2..] == code && ("0x" + code)[..2] == "0x";
  }

  // ---------------------------------------------------------------- the comparison

  /** Every byte but the last has two digits. */
  predicate EvenBytes(bytes: seq<string>) {
    forall i :: 0 <= i < |bytes| ==> if i < |bytes| - 1 then |bytes[i]| == 2 else 1 <= |bytes[i]| <= 2
  }

  lemma {:induction false} BytesEven(body: string)
    ensures EvenBytes(Bytes(body)) && Join(Bytes(body)) == body
  {
    if |body| > 1 {
      BytesEven(body[2..]);
      assert Bytes(body)[1..] == Bytes(body[2..]);
    } else if |body| == 1 {
      assert Bytes(body)[1..] == [];
    }
  }

  lemma MaskedEven(bytes: seq<string>, ranges: seq<Range>)
    requires EvenBytes(bytes)
    ensures EvenBytes(Masked(bytes, ranges))
  {
  }

  /** Joining loses nothing, even when the last byte has a single digit. */
  lemma {:induction false} JoinInjective(a: seq<string>, b: seq<string>)
    requires EvenBytes(a) && EvenBytes(b)
    ensures Join(a) == Join(b) <==> a == b
  {
    if a != [] && b != [] && Join(a) == Join(b) {
      assert EvenBytes(a[1..]) && EvenBytes(b[1..]);
      JoinLength(a);
      JoinLength(b);
      assert |a[0]| == |b[0]|;
      assert a[0] == Join(a)[..|a[0]|] == Join(b)[..|b[0]|] == b[0];
      assert Join(a[1..]) == Join(a)[|a[0]|..] == Join(b)[|b[0]|..] == Join(b[1..]);
      JoinInjective(a[1..], b[1..]);
      assert a == [a[0]] + a[1..] && b == [b[0]] + b[1..];
    }
  }

  lemma {:induction false} JoinLength(a: seq<string>)
    requires EvenBytes(a)
    ensures |a| == 1 ==> Join(a) == a[0]
    ensures |a| > 1 ==> |Join(a)| > 2
    ensures a != [] ==> |Join(a)| >= 1
  {
    if a != [] {
      assert EvenBytes(a[1..]);
      JoinLength(a[1..]);
    }
  }

  /**
   * Two texts compare equal after masking if and only if they have the same number of bytes and
   * agree on every byte that no range covers.
   */
  lemma MaskedEqualIff(a: string, b: string, ranges: seq<Range>)
    ensures var x, y := Bytes(Body(a)), Bytes(Body(b));
            MaskedText(a, ranges) == MaskedText(b, ranges)
            <==> |x| == |y| && forall i :: 0 <= i < |x| && !Covered(ranges, i) ==> x[i] == y[i]
  {
    var x, y := Bytes(Body(a)), Bytes(Body(b));
    BytesEven(Body(a));
    BytesEven(Body(b));
    MaskedEven(x, ranges);
    MaskedEven(y, ranges);
    JoinInjective(Masked(x, ranges), Masked(y, ranges));
    assert MaskedText(a, ranges)[2..] == Join(Masked(x, ranges));
    assert MaskedText(b, ranges)[2..] == Join(Masked(y, ranges));
    if Masked(x, ranges) == Masked(y, ranges) {
      forall i | 0 <= i < |x| && !Covered(ranges, i) ensures x[i] == y[i] {
        assert Masked(x, ranges)[i] == x[i] && Masked(y, ranges)[i] == y[i];
      }
    } else if |x| == |y| {
      var i :| 0 <= i < |x| && Masked(x, ranges)[i] != Masked(y, ranges)[i];
    }
  }

  /** Neither the order of the ranges nor their overlap matters. */
  lemma CoverageDecides(hex: string, ranges: seq<Range>, ranges': seq<Range>)
    requires forall i :: Covered(ranges, i) <==> Covered(ranges', i)
    ensures MaskedText(hex, ranges) == MaskedText(hex, ranges')
  {
    var bytes := Bytes(Body(hex));
    assert Masked(bytes, ranges) == Masked(bytes, ranges');
  }

  /** The immutable references: the byte ranges of each immutable. */
  function AllRanges(refs: seq<seq<Range>>): seq<Range> {
    if refs == [] then [] else AllRanges(refs[..|refs| - 1]) + refs[|refs| - 1]
  }

  lemma {:induction false} AllRangesCover(refs: seq<seq<Range>>, i: int)
    ensures Covered(AllRanges(refs), i) <==> exists k :: 0 <= k < |refs| && Covered(refs[k], i)
  {
    if refs != [] {
      var n := |refs| - 1;
      AllRangesCover(refs[..n], i);
      var a, b := AllRanges(refs[..n]), refs[n];
      ConcatCover(a, b, i);
      assert forall k :: 0 <= k < n ==> refs[..n][k] == refs[k];
    }
  }

  lemma ConcatCover(a: seq<Range>, b: seq<Range>, i: int)
    ensures Covered(a + b, i) <==> Covered(a, i) || Covered(b, i)
  {
    if k :| 0 <= k < |a| && In(a[k], i) {
      assert In((a + b)[k], i);
    }
    if k :| 0 <= k < |b| && In(b[k], i) {
      assert (a + b)[|a| + k] == b[k];
    }
  }

  /** No immutable occupies this byte. */
  predicate Compared(refs: seq<seq<Range>>, i: int) {
    forall k :: 0 <= k < |refs| ==> !Covered(refs[k], i)
  }

  method RuntimeMatches(onchain: string, compiled: string, refs: seq<seq<Range>>) returns (same: bool)
    ensures var x := Bytes(Body(StripCborTrailer(Lower(onchain))));
            var y := Bytes(Body(StripCborTrailer(Lower(compiled))));
            same <==> |x| == |y| && forall i | 0 <= i < |x| && Compared(refs, i) :: x[i] == y[i]
  {
    var ranges: seq<Range> := [];
    for k := 0 to |refs|
      invariant ranges == AllRanges(refs[..k])
    {
      assert refs[..k + 1][..k] == refs[..k];
      for j := 0 to |refs[k]|
        invariant ranges == AllRanges(refs[..k]) + refs[k][..j]
      {
        ranges := ranges + [refs[k][j]];
      }
      assert refs[k][..|refs[k]|] == refs[k];
    }
    assert refs[..|refs|] == refs;
    var a := StripCborTrailer(Lower(onchain));
    var b := StripCborTrailer(Lower(compiled));
    var maskedOnchain := MaskRanges(a, ranges);
    var maskedCompiled := MaskRanges(b, ranges);
    same := maskedOnchain == maskedCompiled;
    MaskedEqualIff(a, b, ranges);
    forall i ensures Compared(refs, i) <==> !Covered(ranges, i) {
      AllRangesCover(refs, i);
    }
  }
}
