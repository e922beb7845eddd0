/** The binding generator's indenting printer. */
module IndentPrinter {
  import opened Common

  const NEWLINE: byte := 10

  // ---------- Layout ----------

  /** What writing b adds to the buffer. */
  function Rendered(b: seq<byte>, need: bool, indent: seq<byte>): seq<byte> {
    if b == [] then [] else (if need then indent else []) + [b[0]] + Rendered(b[1..], b[0] == NEWLINE, indent)
  }

  /** Whether an indent is due after writing b. */
  function Due(b: seq<byte>, need: bool): bool {
    if b == [] then need else b[|b| - 1] == NEWLINE
  }

  /** Byte k of b is the first of a line. */
  predicate StartsLine(b: seq<byte>, need: bool, k: nat)
    requires k < |b|
  {
    if k == 0 then need else b[k - 1] == NEWLINE
  }

  /** The input up to k with the indent put in front of the first byte of each line. */
  function Inserted(b: seq<byte>, need: bool, indent: seq<byte>, k: nat): seq<byte>
    requires k <= |b|
  {
    if k == 0 then []
    else Inserted(b, need, indent, k - 1) + (if StartsLine(b, need, k - 1) then indent else []) + [b[k - 1]]
  }

  /** Writing in two chunks is writing once: the output and the state after it are the same. */
  lemma {:induction false} ChunksAgree(a: seq<byte>, b: seq<byte>, need: bool, indent: seq<byte>)
    ensures Rendered(a + b, need, indent) == Rendered(a, need, indent) + Rendered(b, Due(a, need), indent)
    ensures Due(a + b, need) == Due(b, Due(a, need))
  {
    if a == [] {
      assert a + b == b;
    } else {
      assert (a + b)[1..] == a[1..] + b;
      ChunksAgree(a[1..], b, a[0] == NEWLINE, indent);
      var head := (if need then indent else []) + [a[0]];
      assert Rendered(a + b, need, indent) == head + Rendered(a[1..] + b, a[0] == NEWLINE, indent);
      assert b != [] ==> (a + b)[|a + b| - 1] == b[|b| - 1];
      assert b == [] ==> a + b == a;
    }
  }

  /** All the chunks, one after another. */
  function Joined(chunks: seq<seq<byte>>): seq<byte> {
    if chunks == [] then [] else chunks[0] + Joined(chunks[1..])
  }

  function RenderedChunks(chunks: seq<seq<byte>>, need: bool, indent: seq<byte>): seq<byte> {
    if chunks == [] then []
    else Rendered(chunks[0], need, indent) + RenderedChunks(chunks[1..], Due(chunks[0], need), indent)
  }

  /** Any split of the input gives the same buffer as one write. */
  lemma {:induction false} AnySplitAgrees(chunks: seq<seq<byte>>, need: bool, indent: seq<byte>)
    ensures RenderedChunks(chunks, need, indent) == Rendered(Joined(chunks), need, indent)
  {
    if chunks != [] {
      AnySplitAgrees(chunks[1..], Due(chunks[0], need), indent);
      ChunksAgree(chunks[0], Joined(chunks[1..]), need, indent);
    }
  }

  lemma {:induction false} RenderedPrefix(b: seq<byte>, need: bool, indent: seq<byte>, k: nat)
    requires k <= |b|
    ensures Rendered(b[..k], need, indent) == Inserted(b, need, indent, k)
  {
    if k > 0 {
      RenderedPrefix(b, need, indent, k - 1);
      assert b[..k] == b[..k - 1] + [b[k - 1]];
      ChunksAgree(b[..k - 1], [b[k - 1]], need, indent);
      var due := Due(b[..k - 1], need);
      assert due == StartsLine(b, need, k - 1);
      assert Rendered([b[k - 1]], due, indent) == (if due then indent else []) + [b[k - 1]];
      assert Inserted(b, need, indent, k)
             == Inserted(b, need, indent, k - 1) + ((if due then indent else []) + [b[k - 1]]);
    }
  }

  /** The output is the input with the indent in front of the first byte of each line; a line still empty has none. */
  lemma {:induction false} RenderedIsInsertion(b: seq<byte>, need: bool, indent: seq<byte>)
    ensures Rendered(b, need, indent) == Inserted(b, need, indent, |b|)
  {
    RenderedPrefix(b, need, indent, |b|);
    assert b[..|b|] == b;
  }

  /** A chunk with no newline is copied after the indent, if one is due. */
  lemma {:induction false} PlainRendered(b: seq<byte>, need: bool, indent: seq<byte>)
    requires b != [] && forall k :: 0 <= k < |b| - 1 ==> b[k] != NEWLINE
    ensures Rendered(b, need, indent) == (if need then indent else []) + b
  {
    assert b == [b[0]] + b[1..];
    if |b| > 1 {
      PlainRendered(b[1..], b[0] == NEWLINE, indent);
    }
  }

  /** One more chunk with no newline before its last byte. */
  lemma {:induction false} PlainMore(buf: seq<byte>, done: seq<byte>, b: seq<byte>, need: bool, indent: seq<byte>)
    requires b != [] && forall k :: 0 <= k < |b| - 1 ==> b[k] != NEWLINE
    ensures buf + Rendered(done + b, need, indent)
            == buf + Rendered(done, need, indent) + (if Due(done, need) then indent else []) + b
    ensures Due(done + b, need) == (b[|b| - 1] == NEWLINE)
  {
    assert Due(b, Due(done, need)) == (b[|b| - 1] == NEWLINE);
    hide Rendered, Due;
    ChunksAgree(done, b, need, indent);
    PlainRendered(b, Due(done, need), indent);
    var r, i := Rendered(done, need, indent), if Due(done, need) then indent else [];
    assert buf + (r + (i + b)) == buf + r + i + b;
  }

  lemma {:induction false} NothingRendered(buf: seq<byte>, need: bool, indent: seq<byte>)
    ensures buf + Rendered([], need, indent) == buf && Due([], need) == need
  {
  }

  // ---------- Depth ----------

  function Copies(unit: seq<byte>, n: nat): (s: seq<byte>)
    ensures |s| == n * |unit|
  {
    if n == 0 then [] else unit + Copies(unit, n - 1)
  }

  lemma {:induction false} CopiesMore(unit: seq<byte>, n: nat)
    ensures Copies(unit, n) + unit == Copies(unit, n + 1)
  {
    if n == 0 {
      assert [] + unit == unit + [];
    } else {
      CopiesMore(unit, n - 1);
      assert Copies(unit, n) + unit == unit + (Copies(unit, n - 1) + unit);
    }
  }

  // ---------- The object ----------

  class Printer {
    var buf: seq<byte>
    const indentEach: seq<byte>
    var indentText: seq<byte>
    var needIndent: bool
    ghost var depth: nat

    constructor (unit: seq<byte>)
      ensures Valid() && buf == [] && indentEach == unit && depth == 0 && !needIndent
    {
      buf, indentEach, indentText, needIndent, depth := [], unit, [], false, 0;
    }

    /** The indent text is whole copies of the unit. */
    ghost predicate Valid()
      reads this
    {
      indentText == Copies(indentEach, depth)
    }

    method WriteIndent()
      modifies `buf, `needIndent
      ensures buf == old(buf) + (if old(needIndent) then indentText else [])
      ensures !needIndent
    {
      if !needIndent {
        return;
      }
      needIndent := false;
      buf := buf + indentText;
    }

    /** bytes.IndexByte of a newline; |b| stands for -1. */
    method IndexNewline(b: seq<byte>) returns (i: nat)
      ensures i <= |b| && (i < |b| ==> b[i] == NEWLINE)
      ensures forall k :: 0 <= k < i ==> b[k] != NEWLINE
    {
      i := 0;
      while i < |b| && b[i] != 10
        invariant i <= |b| && forall k :: 0 <= k < i ==> b[k] != NEWLINE
      {
        i := i + 1;
      }
    }

    /** The bytes.Buffer behind the printer never fails, so everything is written. */
    method Write(data: seq<byte>) returns (wrote: nat)
      modifies `buf, `needIndent
      ensures wrote == |data|
      ensures buf == old(buf) + Rendered(data, old(needIndent), indentText)
      ensures needIndent == Due(data, old(needIndent))
    {
      hide Rendered, Due;
      var b := data;
      wrote := 0;
      ghost var done := [];
      assert data == done + b;
      NothingRendered(buf, needIndent, indentText);
      while |b| > 0
        invariant data == done + b && wrote == |done|
        invariant buf == old(buf) + Rendered(done, old(needIndent), indentText)
        invariant needIndent == Due(done, old(needIndent))
        decreases |b|
      {
        WriteIndent();
        var i := IndexNewline(b);
        if i == |b| {
          PlainMore(old(buf), done, b, old(needIndent), indentText);
          break;
        }
        ghost var line := b[..i + 1];
        PlainMore(old(buf), done, line, old(needIndent), indentText);
        buf := buf + b[..i + 1];
        wrote := wrote + (i + 1);
        assert data == (done + line) + b[i + 1..];
        done := done + line;
        b := b[i + 1..];
        needIndent := true;
      }
      assert b == [] ==> done == data;
      if |b| > 0 {
        buf := buf + b;
        wrote := wrote + |b|;
      }
    }

    method Indent()
      requires Valid()
      modifies `indentText, `depth
      ensures Valid() && depth == old(depth) + 1
    {
      CopiesMore(indentEach, depth);
      indentText := indentText + indentEach;
      depth := depth + 1;
    }

    /** One copy fewer, and nothing at depth zero: Outdent never leaves part of a unit. */
    method Outdent()
      requires Valid()
      modifies `indentText, `depth
      ensures Valid() && depth == if old(depth) == 0 then 0 else old(depth) - 1
    {
      if |indentText| > |indentEach| - 1 {
        indentText := indentText[|indentEach|..];
      }
      depth := if depth == 0 then 0 else depth - 1;
    }
  }
}
