/** Numbers on the wire: big-endian fixed width, and the variable-length integers of encoding/binary. */
module Wire {
  import opened Common

  datatype ReadError = Eof | UnexpectedEof | Overflow | BadLength(length: nat)

  /** A value and the position after it. */
  datatype Read<+T> = Read(value: T, next: nat)

  // ---------- Fixed width ----------

  function PutFixed(v: nat, width: nat): (s: seq<byte>)
    ensures |s| == width
  {
    if width == 0 then [] else PutFixed(v / 256, width - 1) + [v % 256]
  }

  function GetFixed(s: seq<byte>): nat {
    if s == [] then 0 else 256 * GetFixed(s[..|s| - 1]) + s[|s| - 1]
  }

  function Pow256(n: nat): (p: nat)
    ensures p > 0
  {
    if n == 0 then 1 else 256 * Pow256(n - 1)
  }

  lemma {:induction false} GetPutFixed(v: nat, width: nat)
    ensures v < Pow256(width) ==> GetFixed(PutFixed(v, width)) == v
  {
    if width > 0 {
      GetPutFixed(v / 256, width - 1);
      assert PutFixed(v, width)[..width - 1] == PutFixed(v / 256, width - 1);
    }
  }

  /** Most significant byte first: byte k of the form is the k-th digit to base 256 from the left. */
  lemma {:induction false} FixedDigits(v: nat, width: nat, k: nat)
    requires k < width
    ensures PutFixed(v, width)[k] == v / Pow256(width - 1 - k) % 256
    decreases width
  {
    if k < width - 1 {
      FixedDigits(v / 256, width - 1, k);
      var p := Pow256(width - 2 - k);
      assert Pow256(width - 1 - k) == 256 * p;
      DivDiv(v, p);
    }
  }

  lemma DivDiv(v: nat, p: nat)
    requires p > 0
    ensures v / 256 / p == v / (256 * p)
  {
    var q := v / (256 * p);
    var r := v % (256 * p);
    assert v == 256 * (p * q) + r;
    assert v / 256 == p * q + r / 256;
    assert r / 256 < p;
    DivUnique(v / 256, p, q, r / 256);
  }

  lemma DivUnique(x: nat, p: nat, q: nat, r: nat)
    requires p > 0 && x == p * q + r && r < p
    ensures x / p == q
  {
    var d: int := x / p - q;
    assert x == p * (x / p) + x % p;
    assert p * d == r - x % p by {
      assert p * d == p * (x / p) - p * q;
    }
    assert d >= 1 ==> p * d >= p;
    assert d <= -1 ==> p * d + p <= 0;
  }

  type int64 = x: int | -TWO63 <= x < TWO63

  /** int64 as its two's complement word. */
  function Int64Word(x: int64): nat
  {
    if x < 0 then x + TWO64 else x
  }

  function WordInt64(w: nat): int64
    requires w < TWO64
  {
    if w < TWO63 then w else w - TWO64
  }

  lemma {:induction false} GetFixedBound(s: seq<byte>)
    ensures GetFixed(s) < Pow256(|s|)
  {
    if s != [] {
      GetFixedBound(s[..|s| - 1]);
    }
  }

  lemma Pow256Eight()
    ensures Pow256(8) == TWO64
  {
    assert Pow256(2) == TWO16;
    assert Pow256(4) == TWO32;
    assert Pow256(6) == 256 * 256 * TWO32;
  }

  function PutInt64(x: int64): (s: seq<byte>)
    ensures |s| == 8
  {
    PutFixed(Int64Word(x), 8)
  }

  /** binary.Read of an int64: nothing left is EOF, too little is an unexpected EOF. */
  function ReadInt64(data: seq<byte>, pos: nat): (r: Result<Read<int64>, ReadError>)
    requires pos <= |data|
    ensures r.Ok? ==> r.value.next == pos + 8 <= |data|
  {
    if pos == |data| then Err(Eof)
    else if pos + 8 > |data| then Err(UnexpectedEof)
    else
      GetFixedBound(data[pos..pos + 8]); Pow256Eight();
      Ok(Read(WordInt64(GetFixed(data[pos..pos + 8])), pos + 8))
  }

  lemma ReadPutInt64(before: seq<byte>, x: int64, after: seq<byte>)
    ensures ReadInt64(before + PutInt64(x) + after, |before|) == Ok(Read(x, |before| + 8))
  {
    var data := before + PutInt64(x) + after;
    assert data[|before|..|before| + 8] == PutInt64(x);
    GetPutFixed(Int64Word(x), 8);
    Pow256Eight();
  }

  lemma {:induction false} PutGetFixed(s: seq<byte>)
    ensures PutFixed(GetFixed(s), |s|) == s
  {
    if s != [] {
      PutGetFixed(s[..|s| - 1]);
      assert s == s[..|s| - 1] + [s[|s| - 1]];
    }
  }

  lemma {:induction false} WordIsBytes(s: seq<byte>)
    requires |s| == 8
    ensures GetFixed(s) < TWO64 && PutInt64(WordInt64(GetFixed(s))) == s
  {
    GetFixedBound(s);
    Pow256Eight();
    PutGetFixed(s);
  }

  lemma ReadInt64IsBytes(data: seq<byte>, pos: nat)
    requires pos <= |data| && ReadInt64(data, pos).Ok?
    ensures PutInt64(ReadInt64(data, pos).value.value) == data[pos..pos + 8]
  {
    WordIsBytes(data[pos..pos + 8]);
  }

  // ---------- Variable length ----------

  function PutUvarint(v: nat): (s: seq<byte>)
    ensures |s| > 0
  {
    if v < 128 then [v] else [128 + v % 128] + PutUvarint(v / 128)
  }

  /** Least significant group of seven bits first, the high bit on all bytes but the last. */
  lemma {:induction false} UvarintBytes(v: nat)
    ensures v < 128 ==> PutUvarint(v) == [v]
    ensures v >= 128 ==> PutUvarint(v) == [128 + v % 128] + PutUvarint(v / 128)
    ensures PutUvarint(300) == [0xac, 0x02]
  {
    assert PutUvarint(2) == [2];
  }

  /** The value of the bytes from `pos` on, `i` bytes into the number: at most ten bytes, the tenth at most 1. */
  function UvarintFrom(data: seq<byte>, pos: nat, i: nat): (r: Result<Read<nat>, ReadError>)
    requires pos <= |data| && i <= 10
    ensures r.Ok? ==> pos < r.value.next <= |data|
    decreases 10 - i
  {
    if i == 10 then Err(Overflow)
    else if pos == |data| then Err(if i > 0 then UnexpectedEof else Eof)
    else if data[pos] < 128 then
      (if i == 9 && data[pos] > 1 then Err(Overflow) else Ok(Read(data[pos], pos + 1)))
    else match UvarintFrom(data, pos + 1, i + 1)
         case Err(e) => Err(e)
         case Ok(r) => Ok(Read(128 * r.value + data[pos] - 128, r.next))
  }

  function ReadUvarint(data: seq<byte>, pos: nat): (r: Result<Read<nat>, ReadError>)
    requires pos <= |data|
    ensures r.Ok? ==> pos < r.value.next <= |data|
  {
    UvarintFrom(data, pos, 0)
  }

  /** A number cut short: at its first byte that is the end of the input, later an unexpected one. */
  lemma {:induction false} UvarintCut(data: seq<byte>, pos: nat, i: nat)
    requires pos <= |data| && i + |data| - pos < 10 && forall k :: pos <= k < |data| ==> data[k] >= 128
    ensures UvarintFrom(data, pos, i) == Err(if i == 0 && pos == |data| then Eof else UnexpectedEof)
    decreases |data| - pos
  {
    if pos < |data| {
      UvarintCut(data, pos + 1, i + 1);
    }
  }

  /** The first value too large for a number read from its i-th byte on. */
  function Limit(i: nat): (l: nat)
    requires i <= 9
    ensures l >= 2 && (i < 9 ==> l >= 128)
    decreases 9 - i
  {
    if i == 9 then 2 else 128 * Limit(i + 1)
  }

  lemma LimitZero()
    ensures Limit(0) == TWO64
  {
    assert Limit(7) == 2 * 128 * 128;
    assert Limit(5) == 128 * 128 * Limit(7);
    assert Limit(3) == 128 * 128 * Limit(5);
    assert Limit(1) == 128 * 128 * Limit(3);
  }

  lemma DivLimit(v: nat, i: nat)
    requires i < 9
    ensures v < Limit(i) <==> v / 128 < Limit(i + 1)
    ensures 128 * (v / 128) + v % 128 == v
  {
  }

  lemma {:induction false} UvarintAt(before: seq<byte>, v: nat, after: seq<byte>, i: nat)
    requires i <= 9
    ensures var r := UvarintFrom(before + PutUvarint(v) + after, |before|, i);
            if v < Limit(i) then r == Ok(Read(v, |before| + |PutUvarint(v)|)) else r == Err(Overflow)
    decreases 9 - i
  {
    hide Limit;
    var data := before + PutUvarint(v) + after;
    assert data[|before|] == PutUvarint(v)[0];
    if v >= 128 {
      var before' := before + [128 + v % 128];
      assert data == before' + PutUvarint(v / 128) + after;
      if i < 9 {
        DivLimit(v, i);
        UvarintAt(before', v / 128, after, i + 1);
      } else {
        LimitNine();
      }
    } else if i == 9 {
      LimitNine();
    }
  }

  lemma LimitNine()
    ensures Limit(9) == 2
  {
  }

  /** Reading undoes writing exactly for the values of 64 bits; a larger one is refused as an overflow. */
  lemma {:induction false} ReadPutUvarint(before: seq<byte>, v: nat, after: seq<byte>)
    ensures var r := ReadUvarint(before + PutUvarint(v) + after, |before|);
            if v < TWO64 then r == Ok(Read(v, |before| + |PutUvarint(v)|)) else r == Err(Overflow)
  {
    UvarintAt(before, v, after, 0);
    LimitZero();
  }

  /** A number that reads reads the same with more input behind it. */
  lemma {:induction false} UvarintStable(data: seq<byte>, more: seq<byte>, pos: nat, i: nat)
    requires pos <= |data| && i <= 10 && UvarintFrom(data, pos, i).Ok?
    ensures UvarintFrom(data + more, pos, i) == UvarintFrom(data, pos, i)
    decreases 10 - i
  {
    if data[pos] >= 128 {
      UvarintStable(data, more, pos + 1, i + 1);
    }
  }

  // ---------- Length-prefixed bytes ----------

  function PutBytes(b: seq<byte>): seq<byte> {
    PutUvarint(|b|) + b
  }

  /** A length, checked against what is left, then that many bytes. */
  function ReadBytes(data: seq<byte>, pos: nat): (r: Result<Read<seq<byte>>, ReadError>)
    requires pos <= |data|
    ensures r.Ok? ==> pos + |r.value.value| < r.value.next <= |data|
    ensures r.Ok? ==> r.value.value == data[r.value.next - |r.value.value|..r.value.next]
  {
    match ReadUvarint(data, pos)
    case Err(e) => Err(e)
    case Ok(n) =>
      if n.value > |data| - n.next then Err(BadLength(n.value))
      else Ok(Read(data[n.next..n.next + n.value], n.next + n.value))
  }

  lemma ReadPutBytes(before: seq<byte>, b: seq<byte>, after: seq<byte>)
    requires |b| < TWO64
    ensures ReadBytes(before + PutBytes(b) + after, |before|) == Ok(Read(b, |before| + |PutBytes(b)|))
  {
    hide PutUvarint, ReadUvarint;
    var n := PutUvarint(|b|);
    var data := before + PutBytes(b) + after;
    assert data == before + n + (b + after);
    ReadPutUvarint(before, |b|, b + after);
    var p := |before| + |n|;
    assert data[p..p + |b|] == b;
  }

  lemma ReadBytesStable(data: seq<byte>, more: seq<byte>, pos: nat)
    requires pos <= |data| && ReadBytes(data, pos).Ok?
    ensures ReadBytes(data + more, pos) == ReadBytes(data, pos)
  {
    UvarintStable(data, more, pos, 0);
    hide UvarintFrom;
    var r := ReadBytes(data, pos).value;
    assert (data + more)[r.next - |r.value|..r.next] == data[r.next - |r.value|..r.next];
  }

  lemma ReadInt64Stable(data: seq<byte>, more: seq<byte>, pos: nat)
    requires pos <= |data| && ReadInt64(data, pos).Ok?
    ensures ReadInt64(data + more, pos) == ReadInt64(data, pos)
  {
    assert (data + more)[pos..pos + 8] == data[pos..pos + 8];
  }
}
