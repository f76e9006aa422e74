/** engine/external_cash_flows.py: which transactions move capital across the
    boundary between the investor and the portfolio. */
module CashFlows {
  import opened Models
  import opened Sequences
  import opened Wrappers

  datatype Flow = Flow(date: Instant, amount: real)

  function FlowDate(): Flow -> int { (f: Flow) => f.date }

  /** EXTERNAL_FLOW_SIGN; `None` for the types that are absent from the table. */
  function ExternalFlowSign(k: TransactionType): Option<real> {
    match k
    case Deposit | TransferIn => Some(-1.0)
    case Withdrawal | TransferOut => Some(1.0)
    case Buy | Sell | Dividend | Fee => None
  }

  /** What the shares of a transfer are worth. */
  function MovedValue(t: Transaction): real
    requires ValidTransaction(t) && IsTransfer(t.kind)
  {
    t.shares.value * t.price.value
  }

  function FlowMagnitude(t: Transaction): real
    requires ValidTransaction(t)
  {
    if IsTransfer(t.kind) then MovedValue(t) else t.amount
  }

  /** The flow one transaction contributes, if any. */
  function FlowOf(t: Transaction): seq<Flow>
    requires ValidTransaction(t)
  {
    match ExternalFlowSign(t.kind)
    case None => []
    case Some(sign) => [Flow(t.date, sign * FlowMagnitude(t))]
  }

  function ExtractFlows(log: seq<Transaction>): seq<Flow>
    requires ValidLog(log)
  {
    if log == [] then [] else ExtractFlows(log[..|log| - 1]) + FlowOf(log[|log| - 1])
  }

  lemma {:induction false} ExtractConcat(a: seq<Transaction>, b: seq<Transaction>)
    requires ValidLog(a) && ValidLog(b) && ValidLog(a + b)
    ensures ExtractFlows(a + b) == ExtractFlows(a) + ExtractFlows(b)
  {
    if b == [] {
      assert a + b == a;
    } else {
      var c, x := b[..|b| - 1], b[|b| - 1];
      assert (a + b)[..|a + b| - 1] == a + c && (a + b)[|a + b| - 1] == x;
      ExtractConcat(a, c);
      Reassociate(ExtractFlows(a), ExtractFlows(c), FlowOf(x));
    }
  }

  /** Moving shares in counts like depositing what they are worth, and moving them out like withdrawing it. */
  lemma {:induction false} TransferCountsAsCash(t: Transaction, cash: Transaction)
    requires ValidTransaction(t) && ValidTransaction(cash) && IsTransfer(t.kind)
    requires cash.kind == (if t.kind.TransferIn? then Deposit else Withdrawal)
    requires cash.date == t.date && cash.amount == MovedValue(t)
    ensures FlowOf(t) == FlowOf(cash)
    ensures FlowOf(cash) == [Flow(t.date, if t.kind.TransferIn? then -cash.amount else cash.amount)]
  {}

  /** A transfer moves what its shares are worth at its price. */
  lemma {:induction false} TransferFlow(t: Transaction)
    requires ValidTransaction(t)
    ensures t.kind.TransferIn? ==> FlowOf(t) == [Flow(t.date, -(t.shares.value * t.price.value))]
    ensures t.kind.TransferOut? ==> FlowOf(t) == [Flow(t.date, t.shares.value * t.price.value)]
  {
    assert IsTransfer(t.kind) ==> FlowMagnitude(t) == t.shares.value * t.price.value;
    assert -1.0 * FlowMagnitude(t) == -FlowMagnitude(t);
  }

  /** The flows are those of the transactions in the log. */
  lemma {:induction false} FlowsOfLog(log: seq<Transaction>, f: Flow)
    requires ValidLog(log)
    ensures f in ExtractFlows(log) <==> exists t :: t in log && FlowOf(t) == [f]
  {
    if log != [] {
      var rest, t := log[..|log| - 1], log[|log| - 1];
      FlowsOfLog(rest, f);
      assert forall x :: x in log <==> x in rest || x == t;
      assert f in FlowOf(t) <==> FlowOf(t) == [f];
    }
  }

  /** Capital into the portfolio is negative, capital out is positive, and no flow is zero. */
  lemma {:induction false} FlowSign(t: Transaction)
    requires ValidTransaction(t)
    ensures FlowOf(t) == [] <==> t.kind.Buy? || t.kind.Sell? || t.kind.Dividend? || t.kind.Fee?
    ensures FlowOf(t) != [] ==> FlowOf(t)[0].date == t.date
    ensures FlowOf(t) != [] ==> (FlowOf(t)[0].amount < 0.0 <==> t.kind.Deposit? || t.kind.TransferIn?)
    ensures FlowOf(t) != [] ==> (FlowOf(t)[0].amount > 0.0 <==> t.kind.Withdrawal? || t.kind.TransferOut?)
  {
    assert FlowOf(t) != [] ==> FlowMagnitude(t) > 0.0;
  }

  lemma {:induction false} ValidParts(a: seq<Transaction>, b: seq<Transaction>)
    requires ValidLog(a + b)
    ensures ValidLog(a) && ValidLog(b)
  {
    assert forall i :: 0 <= i < |a| ==> (a + b)[i] == a[i];
    assert forall i :: 0 <= i < |b| ==> (a + b)[|a| + i] == b[i];
  }

  lemma {:induction false} ExtractAround(c: seq<Transaction>, x: Transaction, d: seq<Transaction>)
    requires ValidLog(c + [x] + d)
    ensures ValidLog(c) && ValidLog(d) && ValidTransaction(x)
    ensures ExtractFlows(c + [x] + d) == ExtractFlows(c) + FlowOf(x) + ExtractFlows(d)
  {
    ValidParts(c + [x], d);
    ValidParts(c, [x]);
    ExtractConcat(c + [x], d);
    var y := c + [x];
    assert y[..|y| - 1] == c && y[|y| - 1] == x;
  }

  /** BUY, SELL, DIVIDEND and FEE are internal: recording one leaves the flows as they were. */
  lemma {:induction false} InternalIgnored(a: seq<Transaction>, t: Transaction, b: seq<Transaction>)
    requires ValidLog(a + [t] + b) && ValidLog(a + b)
    requires t.kind.Buy? || t.kind.Sell? || t.kind.Dividend? || t.kind.Fee?
    ensures ExtractFlows(a + [t] + b) == ExtractFlows(a + b)
  {
    ExtractAround(a, t, b);
    ExtractConcat(a, b);
    FlowSign(t);
  }

  lemma {:induction false} NoExternalFlows(log: seq<Transaction>)
    requires ValidLog(log)
    ensures ExtractFlows(log) == [] <==>
      forall t :: t in log ==> t.kind.Buy? || t.kind.Sell? || t.kind.Dividend? || t.kind.Fee?
  {
    if log != [] {
      var rest, t := log[..|log| - 1], log[|log| - 1];
      NoExternalFlows(rest);
      FlowSign(t);
      assert forall x :: x in log <==> x in rest || x == t;
    }
  }

  /** Reordering the log reorders the flows. */
  lemma {:induction false} ExtractPermutes(a: seq<Transaction>, b: seq<Transaction>)
    requires ValidLog(a) && ValidLog(b) && multiset(a) == multiset(b)
    ensures multiset(ExtractFlows(a)) == multiset(ExtractFlows(b))
    decreases |a|
  {
    if a == [] {
      assert |multiset(b)| == 0;
    } else {
      var k := FindLast(a, b);
      var c, d := b[..k], b[k + 1..];
      ExtractAround(c, b[k], d);
      ExtractConcat(c, d);
      ExtractPermutes(a[..|a| - 1], c + d);
    }
  }
}
