/** Reading a call trace: the register writes it performs, the value the
    power-control register holds after it, and ordered occurrence of calls. */
module BpsTrace {
  import opened BpsTypes

  /** The diagnostic tail every power-domain resync ends with: GDSC hand-off,
      then a read of `pwr_ctrl` and of `pwr_status`. */
  const GdscTail: seq<Call> := [GdscGetControl, RegRead(PwrCtrl), RegRead(PwrStatus)]

  /** `n` copies of one call. */
  function Repeat(c: Call, n: nat): (r: seq<Call>)
    ensures |r| == n
    ensures forall i | 0 <= i < n :: r[i] == c
  {
    if n == 0 then [] else Repeat(c, n - 1) + [c]
  }

  lemma {:induction false} RepeatCount(c: Call, d: Call, n: nat)
    ensures multiset(Repeat(c, n))[d] == if c == d then n else 0
  {
    if n > 0 {
      RepeatCount(c, d, n - 1);
      assert Repeat(c, n) == Repeat(c, n - 1) + [c];
    }
  }

  /** The values written to `pwr_ctrl`, in trace order. */
  function PwrCtrlWrites(t: seq<Call>): seq<bv32>
  {
    if |t| == 0 then []
    else (match t[0] case RegWrite(PwrCtrl, v) => [v] case _ => []) + PwrCtrlWrites(t[1..])
  }

  lemma {:induction false} PwrCtrlWritesAppend(a: seq<Call>, b: seq<Call>)
    ensures PwrCtrlWrites(a + b) == PwrCtrlWrites(a) + PwrCtrlWrites(b)
  {
    if |a| > 0 {
      assert (a + b)[1..] == a[1..] + b;
      PwrCtrlWritesAppend(a[1..], b);
    } else {
      assert a + b == b;
    }
  }

  /** A trace without register writes leaves `pwr_ctrl` alone. */
  lemma {:induction false} NoPwrCtrlWrites(t: seq<Call>)
    requires forall i | 0 <= i < |t| :: !t[i].RegWrite?
    ensures PwrCtrlWrites(t) == []
  {
    if |t| > 0 {
      NoPwrCtrlWrites(t[1..]);
    }
  }

  /** How often call `c` occurs in `t`. */
  function Count(t: seq<Call>, c: Call): nat {
    if |t| == 0 then 0 else (if t[0] == c then 1 else 0) + Count(t[1..], c)
  }

  lemma {:induction false} CountAppend(a: seq<Call>, b: seq<Call>, c: Call)
    ensures Count(a + b, c) == Count(a, c) + Count(b, c)
  {
    if |a| > 0 {
      assert (a + b)[1..] == a[1..] + b;
      CountAppend(a[1..], b, c);
    } else {
      assert a + b == b;
    }
  }

  lemma {:induction false} CountAbsent(t: seq<Call>, c: Call)
    requires c !in t
    ensures Count(t, c) == 0
  {
    if |t| > 0 {
      assert t == [t[0]] + t[1..];
      CountAbsent(t[1..], c);
    }
  }

  /** The kinds of call power collapse makes: register access and the GDSC
      hand-off to the power arbiter. */
  predicate PcCall(c: Call) {
    c.RegRead? || c.RegWrite? || c == GdscGetControl
  }

  /** The kinds of call power resume makes: register access and taking GDSC
      control back. */
  predicate ResumeCall(c: Call) {
    c.RegRead? || c.RegWrite? || c == GdscTransfer
  }

  /** The kinds of call the clock-on sequence of UPDATE_CLK makes: those of
      collapse and resume, and switching the clock on. */
  predicate ClockOnCall(c: Call) {
    PcCall(c) || ResumeCall(c) || c == ClkToggle(true)
  }

  /** A trace that neither writes a register nor starts or stops the
      bus-voting session. */
  predicate Quiet(t: seq<Call>) {
    forall i | 0 <= i < |t| :: !t[i].RegWrite? && !t[i].SessionStart? && !t[i].SessionStop?
  }

  lemma QuietAppend(a: seq<Call>, b: seq<Call>)
    requires Quiet(a) && Quiet(b)
    ensures Quiet(a + b)
  {
    forall i | 0 <= i < |a + b|
      ensures !(a + b)[i].RegWrite? && !(a + b)[i].SessionStart? && !(a + b)[i].SessionStop?
    {
      if i >= |a| {
        assert (a + b)[i] == b[i - |a|];
      }
    }
  }

  /** `t` neither starts nor stops the bus-voting session. */
  predicate SessionFree(t: seq<Call>) {
    forall i | 0 <= i < |t| :: !t[i].SessionStart? && !t[i].SessionStop?
  }

  lemma SessionFreeAppend(a: seq<Call>, b: seq<Call>)
    requires SessionFree(a) && SessionFree(b)
    ensures SessionFree(a + b)
  {
    forall i | 0 <= i < |a + b|
      ensures !(a + b)[i].SessionStart? && !(a + b)[i].SessionStop?
    {
      if i >= |a| {
        assert (a + b)[i] == b[i - |a|];
      }
    }
  }

  lemma QuietSessionFree(t: seq<Call>)
    requires Quiet(t)
    ensures SessionFree(t)
  {
  }

  lemma QuietWritesNothing(t: seq<Call>)
    requires Quiet(t)
    ensures PwrCtrlWrites(t) == []
  {
    NoPwrCtrlWrites(t);
  }

  /** The content of `pwr_ctrl` after trace `t`, starting from `v`: the last
      value written, or `v` when `t` writes nothing. */
  function PwrCtrlAfter(v: bv32, t: seq<Call>): bv32
  {
    var w := PwrCtrlWrites(t);
    if |w| == 0 then v else w[|w| - 1]
  }

  lemma PwrCtrlAfterAppend(v: bv32, a: seq<Call>, b: seq<Call>)
    ensures PwrCtrlAfter(v, a + b) == PwrCtrlAfter(PwrCtrlAfter(v, a), b)
  {
    PwrCtrlWritesAppend(a, b);
  }

  /** The calls of `p` occur in `t` in this order (`p` is a subsequence of `t`). */
  predicate InOrder(p: seq<Call>, t: seq<Call>)
    decreases |t|
  {
    if |p| == 0 then true
    else if |t| == 0 then false
    else if p[0] == t[0] then InOrder(p[1..], t[1..])
    else InOrder(p, t[1..])
  }

  lemma {:induction false} InOrderNil(t: seq<Call>)
    ensures InOrder([], t)
  {
  }

  lemma {:induction false} InOrderSingle(c: Call, t: seq<Call>)
    requires c in t
    ensures InOrder([c], t)
  {
    if t[0] != c {
      InOrderSingle(c, t[1..]);
    } else {
      InOrderNil(t[1..]);
    }
  }

  lemma {:induction false} InOrderAppend(p1: seq<Call>, t1: seq<Call>, p2: seq<Call>, t2: seq<Call>)
    requires InOrder(p1, t1) && InOrder(p2, t2)
    ensures InOrder(p1 + p2, t1 + t2)
    decreases |t1|
  {
    if |t1| == 0 {
      assert p1 == [];
      assert p1 + p2 == p2 && t1 + t2 == t2;
    } else if |p1| == 0 {
      assert p1 + p2 == p2;
      InOrderExtend(p2, t1, t2);
    } else {
      assert (t1 + t2)[1..] == t1[1..] + t2;
      assert (p1 + p2)[0] == p1[0] && (t1 + t2)[0] == t1[0];
      if p1[0] == t1[0] {
        assert (p1 + p2)[1..] == p1[1..] + p2;
        InOrderAppend(p1[1..], t1[1..], p2, t2);
      } else {
        InOrderAppend(p1, t1[1..], p2, t2);
      }
    }
  }

  /** A call in front of a trace does not disturb an order found in it. */
  lemma {:induction false} InOrderCons(p: seq<Call>, x: Call, t: seq<Call>)
    requires InOrder(p, t)
    ensures InOrder(p, [x] + t)
    decreases |t|, 1
  {
    assert ([x] + t)[1..] == t;
    if |p| > 0 && p[0] == x {
      InOrderDropHead(p, t);
    }
  }

  /** A subsequence keeps its order after removing its first call. */
  lemma {:induction false} InOrderDropHead(p: seq<Call>, t: seq<Call>)
    requires |p| > 0 && InOrder(p, t)
    ensures InOrder(p[1..], t)
    decreases |t|, 0
  {
    assert [t[0]] + t[1..] == t;
    if p[0] == t[0] {
      InOrderCons(p[1..], t[0], t[1..]);
    } else {
      InOrderDropHead(p, t[1..]);
      InOrderCons(p[1..], t[0], t[1..]);
    }
  }

  /** Calls in front of a trace do not disturb an order found in it. */
  lemma {:induction false} InOrderExtend(p: seq<Call>, pre: seq<Call>, t: seq<Call>)
    requires InOrder(p, t)
    ensures InOrder(p, pre + t)
    decreases |pre|
  {
    if |pre| > 0 {
      InOrderExtend(p, pre[1..], t);
      InOrderCons(p, pre[0], pre[1..] + t);
      assert [pre[0]] + (pre[1..] + t) == pre + t;
    } else {
      assert pre + t == t;
    }
  }

  /** Every call of an ordered pattern occurs in the trace. */
  lemma {:induction false} InOrderMember(x: Call, p: seq<Call>, t: seq<Call>)
    requires x in p && InOrder(p, t)
    ensures x in t
    decreases |t|
  {
    assert |t| > 0;
    if p[0] == t[0] {
      if x != p[0] {
        assert x in p[1..];
        InOrderMember(x, p[1..], t[1..]);
      }
    } else {
      InOrderMember(x, p, t[1..]);
    }
  }
}
