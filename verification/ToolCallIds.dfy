/** The fallback allocator of tool-call ids: invocations claim ids, and results without an id of their
    own are paired with the oldest claimed id still unmatched. */
module ToolCallIds {

  function Decimal(n: nat): (s: string)
    ensures s != "" && '0' <= s[0] <= '9'
  {
    if n < 10 then ['0' + n as char] else Decimal(n / 10) + ['0' + (n % 10) as char]
  }

  lemma {:induction false} DecimalInjective(m: nat, n: nat)
    requires Decimal(m) == Decimal(n)
    ensures m == n
  {
    var s, t := Decimal(m), Decimal(n);
    assert s[|s| - 1] == '0' + (m % 10) as char && t[|t| - 1] == '0' + (n % 10) as char;
    if m >= 10 && n >= 10 {
      assert s[..|s| - 1] == Decimal(m / 10) && t[..|t| - 1] == Decimal(n / 10);
      DecimalInjective(m / 10, n / 10);
    }
  }

  datatype Allocation = Allocation(conversation: string, invocations: nat, orphans: nat, pending: seq<string>)

  function Fresh(conversation: string): Allocation { Allocation(conversation, 0, 0, []) }

  function InvocationId(conversation: string, n: nat): string { "agy_call_" + conversation + "_" + Decimal(n) }

  function OrphanId(conversation: string, n: nat): string {
    "agy_call_" + conversation + "_orphan_" + Decimal(n)
  }

  function Claim(a: Allocation): (string, Allocation) {
    var id := InvocationId(a.conversation, a.invocations);
    (id, a.(invocations := a.invocations + 1, pending := a.pending + [id]))
  }

  function Match(a: Allocation): (string, Allocation) {
    if a.pending != [] then (a.pending[0], a.(pending := a.pending[1..]))
    else (OrphanId(a.conversation, a.orphans), a.(orphans := a.orphans + 1))
  }

  class ToolCallIdAllocator {
    const conversationId: string
    var invocationCount: nat
    var orphanOutputCount: nat
    var pendingCallIds: seq<string>

    function View(): Allocation
      reads this
    {
      Allocation(conversationId, invocationCount, orphanOutputCount, pendingCallIds)
    }

    constructor (conversationId: string)
      ensures View() == Fresh(conversationId)
    {
      this.conversationId := conversationId;
      invocationCount, orphanOutputCount, pendingCallIds := 0, 0, [];
    }

    method ClaimCallId() returns (id: string)
      modifies this
      ensures (id, View()) == Claim(old(View()))
    {
      id := "agy_call_" + conversationId + "_" + Decimal(invocationCount);
      invocationCount := invocationCount + 1;
      pendingCallIds := pendingCallIds + [id];
    }

    method MatchOutputId() returns (id: string)
      modifies this
      ensures (id, View()) == Match(old(View()))
    {
      if pendingCallIds != [] {
        id := pendingCallIds[0];
        pendingCallIds := pendingCallIds[1..];
        return;
      }
      id := "agy_call_" + conversationId + "_orphan_" + Decimal(orphanOutputCount);
      orphanOutputCount := orphanOutputCount + 1;
    }
  }

  // ----- whole histories -----

  datatype Op = Invoke | Resolve

  /** What a history handed out: ids claimed, ids matched to a result, ids made for orphan results. */
  datatype History = History(claimed: seq<string>, matched: seq<string>, orphaned: seq<string>, now: Allocation)

  function Run(conversation: string, ops: seq<Op>): History {
    if ops == [] then History([], [], [], Fresh(conversation))
    else
      var h := Run(conversation, ops[..|ops| - 1]);
      match ops[|ops| - 1]
      case Invoke => var (id, a) := Claim(h.now); h.(claimed := h.claimed + [id], now := a)
      case Resolve =>
        var (id, a) := Match(h.now);
        if h.now.pending != [] then h.(matched := h.matched + [id], now := a)
        else h.(orphaned := h.orphaned + [id], now := a)
  }

  ghost predicate Distinct(ids: seq<string>) {
    forall i, j :: 0 <= i < j < |ids| ==> ids[i] != ids[j]
  }

  lemma {:induction false} HistoryShape(conversation: string, ops: seq<Op>)
    ensures var h := Run(conversation, ops);
            && h.now.conversation == conversation
            && h.claimed == h.matched + h.now.pending
            && |h.claimed| == h.now.invocations && |h.orphaned| == h.now.orphans
            && (forall i :: 0 <= i < |h.claimed| ==> h.claimed[i] == InvocationId(conversation, i))
            && (forall i :: 0 <= i < |h.orphaned| ==> h.orphaned[i] == OrphanId(conversation, i))
  {
    if ops != [] {
      HistoryShape(conversation, ops[..|ops| - 1]);
    }
  }

  lemma InvocationIdInjective(conversation: string, i: nat, j: nat)
    requires InvocationId(conversation, i) == InvocationId(conversation, j)
    ensures i == j
  {
    var p := "agy_call_" + conversation + "_";
    assert InvocationId(conversation, i)[|p|..] == Decimal(i);
    assert InvocationId(conversation, j)[|p|..] == Decimal(j);
    DecimalInjective(i, j);
  }

  lemma OrphanIdInjective(conversation: string, i: nat, j: nat)
    requires OrphanId(conversation, i) == OrphanId(conversation, j)
    ensures i == j
  {
    var p := "agy_call_" + conversation + "_orphan_";
    assert OrphanId(conversation, i)[|p|..] == Decimal(i);
    assert OrphanId(conversation, j)[|p|..] == Decimal(j);
    DecimalInjective(i, j);
  }

  lemma OrphanIsNoInvocation(conversation: string, i: nat, j: nat)
    ensures InvocationId(conversation, i) != OrphanId(conversation, j)
  {
    var p := "agy_call_" + conversation + "_";
    assert InvocationId(conversation, i)[|p|] == Decimal(i)[0];
    assert OrphanId(conversation, j)[|p|] == 'o';
  }

  /** In every history the matched ids followed by the pending ones are the claimed ids in claim
      order, so the queue is what was claimed and not yet matched; and no id is ever claimed twice,
      matched twice, made twice for an orphan, or both claimed and made for an orphan. */
  lemma PairingIsFirstInFirstOut(conversation: string, ops: seq<Op>)
    ensures var h := Run(conversation, ops);
            && h.claimed == h.matched + h.now.pending
            && Distinct(h.claimed) && Distinct(h.matched) && Distinct(h.orphaned)
            && (forall i, j :: 0 <= i < |h.claimed| && 0 <= j < |h.orphaned| ==> h.claimed[i] != h.orphaned[j])
  {
    HistoryShape(conversation, ops);
    var h := Run(conversation, ops);
    forall i, j | 0 <= i < j < |h.claimed|
      ensures h.claimed[i] != h.claimed[j]
    {
      if h.claimed[i] == h.claimed[j] { InvocationIdInjective(conversation, i, j); }
    }
    forall i, j | 0 <= i < j < |h.orphaned|
      ensures h.orphaned[i] != h.orphaned[j]
    {
      if h.orphaned[i] == h.orphaned[j] { OrphanIdInjective(conversation, i, j); }
    }
    forall i, j | 0 <= i < |h.claimed| && 0 <= j < |h.orphaned|
      ensures h.claimed[i] != h.orphaned[j]
    {
      OrphanIsNoInvocation(conversation, i, j);
    }
    assert forall i :: 0 <= i < |h.matched| ==> h.matched[i] == h.claimed[i];
  }
}
