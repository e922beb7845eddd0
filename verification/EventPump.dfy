/**
  `pump`: an unbounded event queue between two channels, kept in a ring buffer that
  doubles when it is full. The ring's indices are Go ints of `bits` bits, held here as
  residues modulo 2^bits, so they wrap around as in the Go `pump`.
 */
module EventPump {
  import opened Common
  import opened Masks
  import opened RingIndex

  // ---------- The unbounded FIFO the pump promises ----------

  datatype Msg<T> = StopPumping | Event(e: T)

  /** What the select of one iteration does: a receive on dst is served, or src delivers. */
  datatype Choice<T> = Take | Feed(msg: Msg<T>)

  datatype Fifo<T> = Fifo(queue: seq<T>, out: seq<T>, active: bool, closed: bool)

  function Empty<T>(): Fifo<T> { Fifo([], [], true, false) }

  function Serve<T>(f: Fifo<T>, c: Choice<T>): Fifo<T> {
    match c
    case Take => if f.queue == [] then f else f.(queue := f.queue[1..], out := f.out + [f.queue[0]])
    case Feed(StopPumping) => f.(active := false)
    case Feed(Event(e)) => if f.active then f.(queue := f.queue + [e]) else f
  }

  /** One iteration, up to and including the next loop-head test; a closed pump drops what it is fed. */
  function FifoStep<T>(f: Fifo<T>, c: Choice<T>): Fifo<T> {
    if f.closed then f
    else
      var g := Serve(f, c);
      g.(closed := g.queue == [] && !g.active)
  }

  function FifoRun<T>(schedule: seq<Choice<T>>): Fifo<T> {
    if schedule == [] then Empty()
    else FifoStep(FifoRun(schedule[..|schedule| - 1]), schedule[|schedule| - 1])
  }

  /** The events sent on src before the first stopPumping. */
  ghost function Accepted<T>(schedule: seq<Choice<T>>): seq<T> {
    if schedule == [] then []
    else
      var init := Accepted(schedule[..|schedule| - 1]);
      var c := schedule[|schedule| - 1];
      if c.Feed? && c.msg.Event? && Feed(StopPumping) !in schedule then init + [c.msg.e] else init
  }

  /**
    For every schedule: what was delivered followed by what is queued is exactly what was
    accepted before the stop, and dst is closed exactly when a stop was sent and all of it
    has been delivered.
   */
  lemma {:induction false} FifoOrder<T>(schedule: seq<Choice<T>>)
    ensures var f := FifoRun(schedule);
            && f.out + f.queue == Accepted(schedule)
            && (f.active <==> Feed(StopPumping) !in schedule)
            && (f.closed <==> !f.active && f.queue == [])
    decreases |schedule|
  {
    if schedule != [] {
      var init, c := schedule[..|schedule| - 1], schedule[|schedule| - 1];
      FifoOrder(init);
      assert schedule == init + [c];
      assert Feed(StopPumping) in schedule <==> Feed(StopPumping) in init || c == Feed(StopPumping);
      var f := FifoRun(init);
      if c.Take? && f.queue != [] {
        assert f.out + f.queue == f.out + [f.queue[0]] + f.queue[1..];
      } else if c.Feed? && c.msg.Event? && f.active {
        assert f.out + (f.queue + [c.msg.e]) == f.out + f.queue + [c.msg.e];
      }
    }
  }

  function Takes<T>(n: nat): seq<Choice<T>> { seq(n, _ => Take) }

  lemma {:induction false} RunLast<T>(schedule: seq<Choice<T>>, c: Choice<T>)
    ensures FifoRun(schedule + [c]) == FifoStep(FifoRun(schedule), c)
  {
    assert (schedule + [c])[..|schedule|] == schedule;
  }

  lemma {:induction false} TakesServe<T>(schedule: seq<Choice<T>>, n: nat)
    requires n <= |FifoRun(schedule).queue|
    ensures FifoRun(schedule + Takes(n)).queue == FifoRun(schedule).queue[n..]
    ensures FifoRun(schedule + Takes(n)).out == FifoRun(schedule).out + FifoRun(schedule).queue[..n]
    decreases n
  {
    hide FifoRun;
    if n == 0 {
      assert schedule + Takes(0) == schedule;
    } else {
      TakesServe(schedule, n - 1);
      FifoOrder(schedule + Takes(n - 1));
      RunLast(schedule + Takes(n - 1), Take);
      assert schedule + Takes(n) == schedule + Takes(n - 1) + [Take];
      var q := FifoRun(schedule).queue;
      assert q[..n] == q[..n - 1] + [q[n - 1]];
    }
  }

  /**
    Delivery, stopped or not: n receives in a row get the n oldest events that were accepted and not yet
    delivered, in order, as long as there are that many.
   */
  lemma {:induction false} ReceivesGetTheOldest<T>(schedule: seq<Choice<T>>, n: nat)
    requires n <= |FifoRun(schedule).queue|
    ensures |FifoRun(schedule).out| + |FifoRun(schedule).queue| == |Accepted(schedule)|
    ensures FifoRun(schedule + Takes(n)).out == Accepted(schedule)[..|FifoRun(schedule).out| + n]
  {
    hide FifoRun, Accepted;
    TakesServe(schedule, n);
    FifoOrder(schedule);
    var f := FifoRun(schedule);
    assert f.out + f.queue[..n] == (f.out + f.queue)[..|f.out| + n];
  }

  /** After a stop, a consumer that keeps receiving gets everything queued and then sees dst closed. */
  lemma {:induction false} DrainsThenCloses<T>(schedule: seq<Choice<T>>)
    requires Feed(StopPumping) in schedule
    ensures var f := FifoRun(schedule + Takes(|FifoRun(schedule).queue|));
            f.closed && f.out == Accepted(schedule)
  {
    var q := FifoRun(schedule).queue;
    TakesServe(schedule, |q|);
    FifoOrder(schedule);
    FifoOrder(schedule + Takes(|q|));
    assert q[..|q|] == q;
  }

  // ---------- The ring buffer ----------

  /** The count events that start at slot base and run around the ring. */
  function Window<T>(cells: seq<Option<T>>, base: nat, count: nat): (q: seq<T>)
    requires Filled(cells, base, count)
    ensures |q| == count
    ensures forall k :: 0 <= k < count ==> q[k] == cells[Plus(base, k, |cells|)].value
  {
    seq(count, k requires 0 <= k < count => cells[Plus(base, k, |cells|)].value)
  }

  predicate Filled<T>(cells: seq<Option<T>>, base: nat, count: nat) {
    && base < |cells| && count <= |cells|
    && forall k :: 0 <= k < count ==> cells[Plus(base, k, |cells|)].Some?
  }

  lemma WindowTake<T>(cells: seq<Option<T>>, base: nat, count: nat)
    requires Filled(cells, base, count) && count >= 1
    ensures var cells', base' := cells[base := None], Plus(base, 1, |cells|);
            && Filled(cells', base', count - 1)
            && Window(cells', base', count - 1) == Window(cells, base, count)[1..]
            && cells[base] == Some(Window(cells, base, count)[0])
  {
    var cells', base' := cells[base := None], Plus(base, 1, |cells|);
    assert Plus(base, 0, |cells|) == base;
    forall k | 0 <= k < count - 1
      ensures cells'[Plus(base', k, |cells|)] == cells[Plus(base, k + 1, |cells|)]
    {
    }
  }

  lemma WindowAppend<T>(cells: seq<Option<T>>, base: nat, count: nat, e: T)
    requires Filled(cells, base, count) && count < |cells|
    ensures var cells' := cells[Plus(base, count, |cells|) := Some(e)];
            && Filled(cells', base, count + 1)
            && Window(cells', base, count + 1) == Window(cells, base, count) + [e]
  {
  }

  /** Unrolling a full ring to the front of a longer buffer keeps its contents. */
  lemma WindowUnroll<T>(cells: seq<Option<T>>, base: nat, longer: seq<Option<T>>)
    requires Filled(cells, base, |cells|) && |longer| >= |cells|
    requires longer[..|cells|] == cells[base..] + cells[..base]
    ensures Filled(longer, 0, |cells|)
    ensures Window(longer, 0, |cells|) == Window(cells, base, |cells|)
  {
    forall k | 0 <= k < |cells|
      ensures longer[Plus(0, k, |longer|)] == cells[Plus(base, k, |cells|)]
    {
      assert longer[k] == longer[..|cells|][k];
    }
  }

  /** The numbers of a ring twice as long. */
  lemma Doubled(k: nat, bits: nat)
    requires k + 2 < bits
    ensures Pow2(k + 1) == 2 * Pow2(k) && 4 * Pow2(k + 1) <= Pow2(bits)
    ensures And(0, Pow2(k + 1) - 1) == 0
  {
    assert Pow2(k + 3) == 4 * Pow2(k + 1);
    Pow2Divides(k + 3, bits);
  }

  class Pump<T> {
    const bits: nat             // width of a Go int
    var i: nat
    var j: nat
    var buf: array<Option<T>>   // None is nil
    var mask: nat
    var srcActive: bool
    var closed: bool            // dst is closed
    var sent: seq<T>            // what the receiver of dst got
    ghost var logLen: nat
    ghost var base: nat         // i & mask
    ghost var count: nat        // j - i

    ghost predicate Valid()
      reads this, buf
    {
      && 6 <= bits && 4 <= logLen <= bits - 2
      && buf.Length == Pow2(logLen) && mask == buf.Length - 1
      && 4 * buf.Length <= Pow2(bits)
      && i < Pow2(bits) && base == And(i, mask) && base < buf.Length
      && Filled(buf[..], base, count) && j == Plus(i, count, Pow2(bits))
      && (closed <==> !srcActive && count == 0)
    }

    ghost function Contents(): seq<T>
      reads this, buf
      requires Valid()
    {
      Window(buf[..], base, count)
    }

    ghost function Abstract(): Fifo<T>
      reads this, buf
      requires Valid()
    {
      Fifo(Contents(), sent, srcActive, closed)
    }

    constructor (bits: nat)
      requires bits >= 6
      ensures Valid() && Abstract() == Empty() && this.bits == bits && fresh(buf)
    {
      this.bits := bits;
      i, j, mask := 0, 0, 15;
      buf := new Option<T>[16](_ => None);
      srcActive, closed, sent := true, false, [];
      logLen, base, count := 4, 0, 0;
      new;
      assert Pow2(4) == 16;
      assert Pow2(6) == 64;
      Pow2Divides(6, bits);
    }

    /** `case maybeDst <- buf[i&mask]`. */
    method Deliver()
      requires Valid() && i != j
      modifies this, buf
      ensures Valid() && Abstract() == FifoStep(old(Abstract()), Take)
      ensures buf == old(buf)
    {
      hide And, Pow2, Window, Filled;
      MaskedPlus(i, 1, logLen, bits);
      WindowTake(buf[..], base, count);
      var at := And(i, mask);
      sent := sent + [buf[at].value];
      buf[at] := None;
      assert buf[..] == old(buf[..])[at := None];
      i := Plus(i, 1, Pow2(bits));
      base, count := Plus(base, 1, buf.Length), count - 1;
      closed := i == j && !srcActive;
    }

    /** `buf[j&mask] = e; j++` in a ring with room. */
    method Append(e: T)
      requires Valid() && srcActive && count < buf.Length
      modifies this, buf
      ensures Valid() && Abstract() == FifoStep(old(Abstract()), Feed(Event(e)))
      ensures buf == old(buf)
    {
      hide And, Pow2, Window, Filled;
      MaskedPlus(i, count, logLen, bits);
      WindowAppend(buf[..], base, count, e);
      var at := And(j, mask);
      buf[at] := Some(e);
      assert buf[..] == old(buf[..])[at := Some(e)];
      j := Plus(j, 1, Pow2(bits));
      count := count + 1;
    }

    /** The two copies: the ring from slot `at` on, then its start, at the front of a buffer twice as long. */
    method Unrolled(at: nat) returns (b: array<Option<T>>)
      requires at < buf.Length
      ensures fresh(b) && b.Length == 2 * buf.Length
      ensures b[..][..buf.Length] == buf[..][at..] + buf[..][..at]
    {
      b := new Option<T>[2 * buf.Length](_ => None);
      var n := buf.Length - at;
      forall k | 0 <= k < n {
        b[k] := buf[at + k];
      }
      forall k | 0 <= k < at {
        b[n + k] := buf[k];
      }
    }

    /** Doubling a full ring: unroll it to the front of a buffer twice as long. */
    method Grow()
      requires Valid() && count == buf.Length && logLen < bits - 2
      modifies this
      ensures Valid() && Abstract() == old(Abstract())
      ensures fresh(buf) && count < buf.Length
    {
      hide And, Pow2, Window, Filled;
      MaskedPlus(i, count, logLen, bits);
      Doubled(logLen, bits);
      var b := Unrolled(And(j, mask));
      WindowUnroll(buf[..], base, b[..]);
      i, j := 0, buf.Length;
      buf, mask := b, b.Length - 1;
      logLen, base := logLen + 1, 0;
    }

    /**
      `case e := <-src`. ok is false where the Go `make` panics: a full ring of 2^(bits-2)
      slots cannot be doubled, its length would not be an int.
     */
    method Receive(msg: Msg<T>) returns (ok: bool)
      requires Valid() && !closed
      modifies this, buf
      ensures ok ==> Valid() && Abstract() == FifoStep(old(Abstract()), Feed(msg))
      ensures !ok ==> old(|Contents()|) == Pow2(bits - 2)
      ensures fresh(buf) || buf == old(buf)
    {
      ok := true;
      match msg
      case StopPumping =>
        srcActive := false;
        closed := i == j;
      case Event(e) =>
        if !srcActive {
          return;
        }
        if Plus(i, buf.Length, Pow2(bits)) == j {
          Pow2Divides(logLen, bits - 2);
          if 2 * buf.Length > Pow2(bits - 2) {
            if logLen < bits - 2 {
              Pow2Divides(logLen + 1, bits - 2);
            }
            ok := false;
            return;
          }
          Grow();
        }
        Append(e);
    }

    /**
      The pump's goroutine from its start, driven by the choices of its selects. A Take is
      not offered while the ring is empty, and once dst is closed src is only drained. It
      behaves as the unbounded FIFO; it can stop short only at a ring of 2^(bits-2) events.
     */
    method Run(schedule: seq<Choice<T>>) returns (ok: bool)
      requires Valid() && Abstract() == Empty()
      modifies this, buf
      ensures ok ==> Valid() && Abstract() == FifoRun(schedule)
      ensures !ok ==> exists n :: 0 <= n < |schedule| && |FifoRun(schedule[..n]).queue| == Pow2(bits - 2)
    {
      for n := 0 to |schedule|
        invariant Valid() && Abstract() == FifoRun(schedule[..n])
        invariant fresh(buf) || buf == old(buf)
      {
        assert schedule[..n + 1][..n] == schedule[..n];
        if !closed {
          match schedule[n]
          case Take =>
            if i != j {
              Deliver();
            }
          case Feed(msg) =>
            ok := Receive(msg);
            if !ok {
              return;
            }
        }
      }
      assert schedule[..|schedule|] == schedule;
      ok := true;
    }
  }
}
