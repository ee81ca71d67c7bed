/** The gap-limit scan of a legacy wallet's addresses (commands/restore.rs). The
    server is an arbitrary answer for every address, fixed for one scan. */
module GapScan {
  import opened Common
  import opened Lists

  const GAP_LIMIT: u32 := 20
  const MAX_SCAN_ADDRESSES: u32 := 10_000

  datatype UtxoEntry = UtxoEntry(txHash: seq<byte>, txPos: u32, value: u64)

  /** What happens at one address: the key cannot be derived, its script hash
      cannot be computed, the query fails, or the query answers. */
  datatype Response = DeriveFailed | ScripthashFailed | QueryFailed | Answer(utxos: seq<UtxoEntry>)

  type Server = (nat, nat) -> Response

  datatype FoundUtxo = FoundUtxo(entry: UtxoEntry, change: nat, index: nat)

  datatype ScanError = Derivation | Overflow | AllQueriesFailed

  datatype Report = Report(found: seq<FoundUtxo>, totalSats: u64, addressesScanned: nat,
                           queryFailures: nat, querySuccesses: nat)

  const EMPTY := Report([], 0, 0, 0, 0)

  // ----- which indices a scan visits --------------------------------------

  /** An address with at least one unspent output. */
  predicate Used(server: Server, change: nat, index: nat)
  {
    var r := server(change, index);
    r.Answer? && r.utxos != []
  }

  /** The last used index below `index`. */
  function LastUsed(server: Server, change: nat, index: nat): (r: Option<nat>)
    ensures r.Some? ==> r.value < index && Used(server, change, r.value)
    ensures r.Some? ==> forall k :: r.value < k < index ==> !Used(server, change, k)
    ensures r.None? ==> forall k :: 0 <= k < index ==> !Used(server, change, k)
  {
    if index == 0 then None
    else if Used(server, change, index - 1) then Some(index - 1)
    else LastUsed(server, change, index - 1)
  }

  /** The gap rule after visiting `index`, in the two forms the code has it. */
  predicate GapReached(last: Option<nat>, index: nat)
    requires last.Some? ==> last.value <= index
  {
    match last
    case Some(l) => index - l >= GAP_LIMIT
    case None => index + 1 >= GAP_LIMIT
  }

  predicate StopsAfter(server: Server, change: nat, index: nat)
  {
    GapReached(LastUsed(server, change, index + 1), index)
  }

  /** The number of addresses visited on a chain, counted from a visit to `index` on. */
  function VisitCount(server: Server, change: nat, index: nat): (n: nat)
    requires index < MAX_SCAN_ADDRESSES
    ensures index < n <= MAX_SCAN_ADDRESSES
    ensures forall k :: index <= k < n - 1 ==> !StopsAfter(server, change, k)
    ensures StopsAfter(server, change, n - 1) || n == MAX_SCAN_ADDRESSES
    decreases MAX_SCAN_ADDRESSES - index, change
  {
    if StopsAfter(server, change, index) || index + 1 >= MAX_SCAN_ADDRESSES then index + 1
    else VisitCount(server, change, index + 1)
  }

  function Visited(server: Server, change: nat): nat
  {
    VisitCount(server, change, 0)
  }

  // ----- what a scan reports ----------------------------------------------

  function Tag(utxos: seq<UtxoEntry>, change: nat, index: nat): (r: seq<FoundUtxo>)
    ensures |r| == |utxos|
  {
    seq(|utxos|, i requires 0 <= i < |utxos| => FoundUtxo(utxos[i], change, index))
  }

  function UtxosAt(server: Server, change: nat, index: nat): seq<UtxoEntry>
  {
    var r := server(change, index);
    if r.Answer? then r.utxos else []
  }

  /** Everything the first `n` addresses of a chain hold, in order. */
  function FoundBelow(server: Server, change: nat, n: nat): seq<FoundUtxo>
  {
    if n == 0 then []
    else FoundBelow(server, change, n - 1) + Tag(UtxosAt(server, change, n - 1), change, n - 1)
  }

  function AnsweredBelow(server: Server, change: nat, n: nat): (r: nat)
    ensures r <= n
  {
    if n == 0 then 0
    else AnsweredBelow(server, change, n - 1) + if server(change, n - 1).Answer? then 1 else 0
  }

  function Sats(u: FoundUtxo): nat { u.entry.value }

  /** The keys of the first `n` addresses could all be derived. */
  predicate DerivedBelow(server: Server, change: nat, n: nat)
  {
    n == 0 || (DerivedBelow(server, change, n - 1) && !server(change, n - 1).DeriveFailed?)
  }

  /** The report after the first `n` addresses of a chain, added to what was there. */
  ghost predicate Adds(server: Server, change: nat, n: nat, before: Report, after: Report)
  {
    && DerivedBelow(server, change, n)
    && after.found == before.found + FoundBelow(server, change, n)
    && after.totalSats == before.totalSats + Total(FoundBelow(server, change, n), Sats)
    && after.addressesScanned == before.addressesScanned + n
    && after.querySuccesses == before.querySuccesses + AnsweredBelow(server, change, n)
    && after.queryFailures == before.queryFailures + n - AnsweredBelow(server, change, n)
  }

  // ----- the loops --------------------------------------------------------

  /** The loop over one address's outputs. */
  method Collect(utxos: seq<UtxoEntry>, change: nat, index: nat, report: Report) returns (r: Result<Report, ScanError>)
    ensures r.Ok? ==> r.value == report.(found := report.found + Tag(utxos, change, index),
                                         totalSats := r.value.totalSats)
    ensures r.Ok? ==> r.value.totalSats == report.totalSats + Total(Tag(utxos, change, index), Sats)
    ensures r.Err? ==> r.error == Overflow && report.totalSats + Total(Tag(utxos, change, index), Sats) > U64_MAX
  {
    var tags := Tag(utxos, change, index);
    var out := report;
    for i := 0 to |utxos|
      invariant out == report.(found := report.found + tags[..i], totalSats := out.totalSats)
      invariant out.totalSats == report.totalSats + Total(tags[..i], Sats)
    {
      TotalTake(tags, i, Sats);
      TotalTakeMono(tags, i + 1, |tags|, Sats);
      assert tags[..|tags|] == tags;
      if out.totalSats + utxos[i].value > U64_MAX {
        return Err(Overflow);
      }
      assert tags[..i + 1] == tags[..i] + [tags[i]];
      out := out.(found := out.found + [FoundUtxo(utxos[i], change, index)], totalSats := out.totalSats + utxos[i].value);
    }
    assert tags[..|utxos|] == tags;
    return Ok(out);
  }

  /** An unanswered address adds one scan and one failure. */
  lemma AddsFailure(server: Server, change: nat, n: nat, before: Report, after: Report)
    requires Adds(server, change, n, before, after)
    requires !server(change, n).Answer? && !server(change, n).DeriveFailed?
    ensures Adds(server, change, n + 1, before,
                 after.(addressesScanned := after.addressesScanned + 1, queryFailures := after.queryFailures + 1))
  {
    assert FoundBelow(server, change, n) + Tag([], change, n) == FoundBelow(server, change, n);
  }

  /** An answered address adds one scan, one success and its outputs. */
  lemma AddsAnswer(server: Server, change: nat, n: nat, before: Report, after: Report, next: Report)
    requires Adds(server, change, n, before, after) && server(change, n).Answer?
    requires var tags := Tag(server(change, n).utxos, change, n);
             next == Report(after.found + tags, next.totalSats, after.addressesScanned + 1, after.queryFailures,
                            after.querySuccesses + 1)
             && next.totalSats == after.totalSats + Total(tags, Sats)
    ensures Adds(server, change, n + 1, before, next)
  {
    var tags := Tag(server(change, n).utxos, change, n);
    FoundOneMore(server, change, n);
    AppendTwice(before.found, FoundBelow(server, change, n), tags);
  }

  lemma FoundOneMore(server: Server, change: nat, n: nat)
    ensures FoundBelow(server, change, n + 1) ==
            FoundBelow(server, change, n) + Tag(UtxosAt(server, change, n), change, n)
    ensures Total(FoundBelow(server, change, n + 1), Sats) ==
            Total(FoundBelow(server, change, n), Sats) + Total(Tag(UtxosAt(server, change, n), change, n), Sats)
  {
    TotalConcat(FoundBelow(server, change, n), Tag(UtxosAt(server, change, n), change, n), Sats);
  }

  lemma AppendTwice<T>(a: seq<T>, b: seq<T>, c: seq<T>)
    ensures a + b + c == a + (b + c)
  {
  }

  lemma OverflowsNext(server: Server, change: nat, n: nat, before: Report, after: Report)
    requires Adds(server, change, n, before, after) && server(change, n).Answer?
    requires after.totalSats + Total(Tag(server(change, n).utxos, change, n), Sats) > U64_MAX
    ensures FailsAt(server, change, n, before.totalSats, Overflow)
  {
    FoundOneMore(server, change, n);
  }

  /** One address: the query and its bookkeeping. */
  method Visit(server: Server, change: nat, index: nat, ghost before: Report, report: Report)
    returns (r: Result<Report, ScanError>)
    requires Adds(server, change, index, before, report)
    ensures r.Ok? ==> Adds(server, change, index + 1, before, r.value)
    ensures r.Err? ==> FailsAt(server, change, index, before.totalSats, r.error)
  {
    var response := server(change, index);
    if response.DeriveFailed? {
      return Err(Derivation);
    }
    var counted := report.(addressesScanned := report.addressesScanned + 1);
    if response.Answer? {
      r := Collect(response.utxos, change, index, counted.(querySuccesses := counted.querySuccesses + 1));
      if r.Ok? {
        AddsAnswer(server, change, index, before, report, r.value);
      } else {
        OverflowsNext(server, change, index, before, report);
      }
    } else {
      AddsFailure(server, change, index, before, report);
      return Ok(counted.(queryFailures := counted.queryFailures + 1));
    }
  }

  /** The first address at which a chain cannot go on, given the total before it: the
      key does not derive, or its outputs overflow the total. */
  ghost predicate FailsAt(server: Server, change: nat, index: nat, before: nat, e: ScanError)
  {
    && DerivedBelow(server, change, index) && before + SatsBelow(server, change, index) <= U64_MAX
    && if server(change, index).DeriveFailed? then e == Derivation
       else e == Overflow && before + SatsBelow(server, change, index + 1) > U64_MAX
  }

  function SatsBelow(server: Server, change: nat, n: nat): nat
  {
    Total(FoundBelow(server, change, n), Sats)
  }

  /** The loop's bookkeeping: where it is and the last used index so far. */
  ghost predicate AtIndex(server: Server, change: nat, index: nat, last: Option<nat>)
  {
    && index < MAX_SCAN_ADDRESSES
    && VisitCount(server, change, index) == Visited(server, change)
    && last == LastUsed(server, change, index)
  }

  function Latest(server: Server, change: nat, index: nat, last: Option<nat>): Option<nat>
  {
    if Used(server, change, index) then Some(index) else last
  }

  lemma NextIndex(server: Server, change: nat, index: nat, last: Option<nat>)
    requires AtIndex(server, change, index, last)
    ensures Latest(server, change, index, last) == LastUsed(server, change, index + 1)
    ensures if GapReached(LastUsed(server, change, index + 1), index) || index + 1 >= MAX_SCAN_ADDRESSES
            then Visited(server, change) == index + 1
            else AtIndex(server, change, index + 1, LastUsed(server, change, index + 1))
    ensures index < Visited(server, change)
  {
  }

  /** One chain. The indices visited are `0 .. end - 1`, each once, or up to the
      address that aborts the scan. The gap rule is applied in the same way after
      a failed script hash, a failed query and an answer. */
  method ScanChain(server: Server, change: nat, before: Report) returns (r: Result<Report, ScanError>, ghost end: nat)
    ensures r.Ok? ==> end == Visited(server, change) && Adds(server, change, end, before, r.value)
    ensures r.Err? ==> end < Visited(server, change) && FailsAt(server, change, end, before.totalSats, r.error)
  {
    var lastFoundIndex: Option<nat> := None;
    var index := 0;
    var report := before;
    while true
      invariant AtIndex(server, change, index, lastFoundIndex)
      invariant Adds(server, change, index, before, report)
      decreases MAX_SCAN_ADDRESSES - index
    {
      NextIndex(server, change, index, lastFoundIndex);
      var visit := Visit(server, change, index, before, report);
      if visit.Err? {
        return visit, index;
      }
      report := visit.value;
      lastFoundIndex := Latest(server, change, index, lastFoundIndex);
      if GapReached(lastFoundIndex, index) {
        return Ok(report), index + 1;
      }
      index := index + 1;
      if index >= MAX_SCAN_ADDRESSES {
        return Ok(report), index;
      }
    }
  }

  /** The report on the first addresses of both chains, receiving first: every
      satoshi and every query accounted for. */
  ghost predicate ReportsUpTo(server: Server, n0: nat, n1: nat, r: Report)
  {
    && r.found == FoundBelow(server, 0, n0) + FoundBelow(server, 1, n1)
    && r.totalSats == Total(r.found, Sats)
    && r.addressesScanned == n0 + n1
    && r.querySuccesses == AnsweredBelow(server, 0, n0) + AnsweredBelow(server, 1, n1)
    && r.querySuccesses + r.queryFailures == r.addressesScanned
  }

  /** What a finished scan reports. */
  ghost predicate ReportsBoth(server: Server, r: Report)
  {
    ReportsUpTo(server, Visited(server, 0), Visited(server, 1), r)
  }

  lemma AddsTwice(server: Server, n0: nat, n1: nat, first: Report, both: Report)
    requires Adds(server, 0, n0, EMPTY, first) && Adds(server, 1, n1, first, both)
    ensures ReportsUpTo(server, n0, n1, both)
  {
    TotalConcat(FoundBelow(server, 0, n0), FoundBelow(server, 1, n1), Sats);
    assert EMPTY.found + FoundBelow(server, 0, n0) == FoundBelow(server, 0, n0);
  }

  lemma SatsGrowByOne(server: Server, change: nat, n: nat)
    ensures SatsBelow(server, change, n) <= SatsBelow(server, change, n + 1)
  {
    FoundOneMore(server, change, n);
  }

  lemma {:induction false} SatsGrow(server: Server, change: nat, m: nat, n: nat)
    requires m <= n
    ensures SatsBelow(server, change, m) <= SatsBelow(server, change, n)
    decreases n - m
  {
    if m < n {
      SatsGrowByOne(server, change, m);
      SatsGrow(server, change, m + 1, n);
    }
  }

  lemma {:induction false} DerivedBelowAll(server: Server, change: nat, n: nat, index: nat)
    requires index < n && server(change, index).DeriveFailed?
    ensures !DerivedBelow(server, change, n)
  {
    if index < n - 1 {
      DerivedBelowAll(server, change, n - 1, index);
    }
  }

  function ChainSats(server: Server, change: nat): nat
  {
    SatsBelow(server, change, Visited(server, change))
  }

  function ChainAnswers(server: Server, change: nat): nat
  {
    AnsweredBelow(server, change, Visited(server, change))
  }

  predicate ChainDerives(server: Server, change: nat)
  {
    DerivedBelow(server, change, Visited(server, change))
  }

  /** A chain that aborts the scan has a reason that stands for the whole chain. */
  lemma ChainFails(server: Server, change: nat, index: nat, before: nat, e: ScanError)
    requires index < Visited(server, change) && FailsAt(server, change, index, before, e)
    ensures e == Derivation ==> !ChainDerives(server, change)
    ensures e == Overflow ==> before + ChainSats(server, change) > U64_MAX
    ensures e != AllQueriesFailed
  {
    SatsGrow(server, change, index + 1, Visited(server, change));
    if e == Derivation {
      DerivedBelowAll(server, change, Visited(server, change), index);
    }
  }

  /** A chain aborts the scan with this error, at one of the addresses it visits. */
  ghost predicate FailsIn(server: Server, change: nat, before: nat, e: ScanError)
  {
    exists i: nat :: i < Visited(server, change) && FailsAt(server, change, i, before, e)
  }

  /** A chain does not abort the scan. */
  predicate ChainGoesOn(server: Server, change: nat, before: nat)
  {
    ChainDerives(server, change) && before + ChainSats(server, change) <= U64_MAX
  }

  /** The receiving chain fails, or it does not and the change chain does, or neither
      does and no query answered. */
  ghost predicate ScanFails(server: Server, e: ScanError)
  {
    || FailsIn(server, 0, 0, e)
    || (ChainGoesOn(server, 0, 0) && FailsIn(server, 1, ChainSats(server, 0), e))
    || (&& ChainGoesOn(server, 0, 0) && ChainGoesOn(server, 1, ChainSats(server, 0))
        && ChainAnswers(server, 0) + ChainAnswers(server, 1) == 0 && e == AllQueriesFailed)
  }

  /** There is one place and one reason, and only if the chain does not go on. */
  lemma FailureIsUnique(server: Server, change: nat, before: nat, i: nat, e: ScanError, i': nat, e': ScanError)
    requires i < Visited(server, change) && FailsAt(server, change, i, before, e)
    requires i' < Visited(server, change) && FailsAt(server, change, i', before, e')
    ensures i == i' && e == e' && !ChainGoesOn(server, change, before)
  {
    FailsNotLater(server, change, before, i, e, i', e');
    FailsNotLater(server, change, before, i', e', i, e);
    ChainFails(server, change, i, before, e);
  }

  lemma FailsNotLater(server: Server, change: nat, before: nat, i: nat, e: ScanError, i': nat, e': ScanError)
    requires FailsAt(server, change, i, before, e) && FailsAt(server, change, i', before, e')
    ensures i' <= i
  {
    if i < i' {
      SatsGrow(server, change, i + 1, i');
      if server(change, i).DeriveFailed? {
        DerivedBelowAll(server, change, i', i);
      }
    }
  }

  /** Every key of both chains derives, the sum fits and some query answered. */
  predicate ScanSucceeds(server: Server)
  {
    && ChainDerives(server, 0) && ChainDerives(server, 1)
    && ChainSats(server, 0) + ChainSats(server, 1) <= U64_MAX
    && ChainAnswers(server, 0) + ChainAnswers(server, 1) > 0
  }

  lemma ReceivingFails(server: Server, end: nat, e: ScanError)
    requires end < Visited(server, 0) && FailsAt(server, 0, end, 0, e)
    ensures ScanFails(server, e) && !ScanSucceeds(server)
  {
    ChainFails(server, 0, end, 0, e);
    assert FailsIn(server, 0, 0, e);
  }

  lemma ReceivingGoesOn(server: Server, first: Report)
    requires Adds(server, 0, Visited(server, 0), EMPTY, first)
    ensures ChainGoesOn(server, 0, 0) && first.totalSats == ChainSats(server, 0)
  {
  }

  lemma ChangeFails(server: Server, end: nat, e: ScanError)
    requires ChainGoesOn(server, 0, 0)
    requires end < Visited(server, 1) && FailsAt(server, 1, end, ChainSats(server, 0), e)
    ensures ScanFails(server, e) && !ScanSucceeds(server)
  {
    ChainFails(server, 1, end, ChainSats(server, 0), e);
    assert FailsIn(server, 1, ChainSats(server, 0), e);
  }

  lemma BothGoOn(server: Server, first: Report, both: Report)
    requires Adds(server, 0, Visited(server, 0), EMPTY, first) && Adds(server, 1, Visited(server, 1), first, both)
    ensures ReportsBoth(server, both) && both.addressesScanned > 0
    ensures ScanSucceeds(server) <==> both.querySuccesses > 0
    ensures !ScanSucceeds(server) ==> ScanFails(server, AllQueriesFailed)
  {
    AddsTwice(server, Visited(server, 0), Visited(server, 1), first, both);
  }

  /** Both chains, then the verdict on the queries: a scan in which every query
      failed is an error, not an empty wallet. */
  method Scan(server: Server) returns (r: Result<Report, ScanError>)
    ensures r.Ok? <==> ScanSucceeds(server)
    ensures r.Ok? ==> ReportsBoth(server, r.value)
    ensures r.Err? ==> ScanFails(server, r.error)
  {
    ghost var end;
    var first;
    first, end := ScanChain(server, 0, EMPTY);
    if first.Err? {
      ReceivingFails(server, end, first.error);
      return first;
    }
    ReceivingGoesOn(server, first.value);
    r, end := ScanChain(server, 1, first.value);
    if r.Err? {
      ChangeFails(server, end, r.error);
      return r;
    }
    BothGoOn(server, first.value, r.value);
    if r.value.querySuccesses == 0 && r.value.queryFailures > 0 {
      return Err(AllQueriesFailed);
    }
  }

  // ----- each output once, in order ---------------------------------------

  /** Outputs of the first `n` addresses of a chain, in the order of the addresses. */
  predicate InAddressOrder(found: seq<FoundUtxo>, change: nat, n: nat)
  {
    && (forall i, j :: 0 <= i < j < |found| ==> found[i].index <= found[j].index)
    && (forall i :: 0 <= i < |found| ==> found[i].change == change && found[i].index < n)
  }

  lemma OrderedTagAppended(found: seq<FoundUtxo>, utxos: seq<UtxoEntry>, change: nat, n: nat)
    requires InAddressOrder(found, change, n)
    ensures InAddressOrder(found + Tag(utxos, change, n), change, n + 1)
  {
  }

  lemma {:induction false} FoundInOrder(server: Server, change: nat, n: nat)
    ensures InAddressOrder(FoundBelow(server, change, n), change, n)
  {
    if n > 0 {
      FoundInOrder(server, change, n - 1);
      OrderedTagAppended(FoundBelow(server, change, n - 1), UtxosAt(server, change, n - 1), change, n - 1);
    }
  }

  /** The number of outputs at the first `n` addresses. */
  function OutputsBelow(server: Server, change: nat, n: nat): nat
  {
    if n == 0 then 0 else OutputsBelow(server, change, n - 1) + |UtxosAt(server, change, n - 1)|
  }

  /** The outputs of one address stand together in the list, as the server listed them. */
  lemma {:induction false} FoundTogether(server: Server, change: nat, n: nat, index: nat)
    ensures |FoundBelow(server, change, n)| == OutputsBelow(server, change, n)
    ensures index < n ==>
              var at, size := OutputsBelow(server, change, index), |UtxosAt(server, change, index)|;
              && at + size <= |FoundBelow(server, change, n)|
              && FoundBelow(server, change, n)[at..at + size] == Tag(UtxosAt(server, change, index), change, index)
  {
    if n > 0 {
      FoundTogether(server, change, n - 1, index);
      var before, tags := FoundBelow(server, change, n - 1), Tag(UtxosAt(server, change, n - 1), change, n - 1);
      if index < n - 1 {
        var at, size := OutputsBelow(server, change, index), |UtxosAt(server, change, index)|;
        assert (before + tags)[at..at + size] == before[at..at + size];
      } else if index == n - 1 {
        assert (before + tags)[|before|..] == tags;
      }
    }
  }

  /** A chain reports the addresses in order, and of each address exactly the outputs
      the server listed, in the server's order. */
  lemma FoundOnceInOrder(server: Server, change: nat, n: nat, index: nat)
    ensures InAddressOrder(FoundBelow(server, change, n), change, n)
    ensures |FoundBelow(server, change, n)| == OutputsBelow(server, change, n)
    ensures index < n ==>
              var at, size := OutputsBelow(server, change, index), |UtxosAt(server, change, index)|;
              && at + size <= |FoundBelow(server, change, n)|
              && FoundBelow(server, change, n)[at..at + size] == Tag(UtxosAt(server, change, index), change, index)
  {
    FoundTogether(server, change, n, index);
    FoundInOrder(server, change, n);
  }

  /** The number of queries that answered. */
  lemma {:induction false} AnswersCounted(server: Server, change: nat, n: nat)
    ensures AnsweredBelow(server, change, n) == |set i: nat | i < n && server(change, i).Answer?|
  {
    if n > 0 {
      AnswersCounted(server, change, n - 1);
      var before, all := set i: nat | i < n - 1 && server(change, i).Answer?, set i: nat | i < n && server(change, i).Answer?;
      if server(change, n - 1).Answer? {
        assert all == before + {n - 1};
      } else {
        assert all == before;
      }
    }
  }

  // ----- completeness -----------------------------------------------------

  /** An index the gap rule can get to: from the start within the limit, or from
      the last used index before it, itself such an index, by a gap of at most the limit. */
  predicate WithinGaps(server: Server, change: nat, index: nat)
  {
    match LastUsed(server, change, index)
    case None => index < GAP_LIMIT
    case Some(last) => index - last <= GAP_LIMIT && WithinGaps(server, change, last)
  }

  ghost predicate NoStopBefore(server: Server, change: nat, index: nat)
  {
    forall k :: 0 <= k < index ==> !StopsAfter(server, change, k)
  }

  lemma NoStopGoesBack(server: Server, change: nat, index: nat)
    requires NoStopBefore(server, change, index)
    ensures match LastUsed(server, change, index)
            case None => index < GAP_LIMIT
            case Some(last) => index - last <= GAP_LIMIT && NoStopBefore(server, change, last)
  {
    if index > 0 {
      assert !StopsAfter(server, change, index - 1);
    }
  }

  lemma NoStopGoesOn(server: Server, change: nat, index: nat)
    requires match LastUsed(server, change, index)
             case None => index < GAP_LIMIT
             case Some(last) => index - last <= GAP_LIMIT && NoStopBefore(server, change, last)
    ensures NoStopBefore(server, change, index)
  {
    var last := LastUsed(server, change, index);
    forall k | 0 <= k < index
      ensures !StopsAfter(server, change, k)
    {
      if last.None? || last.value <= k {
        SameLastUsed(server, change, k + 1, index);
      }
    }
  }

  lemma {:induction false} WithinGapsIffNoStop(server: Server, change: nat, index: nat)
    ensures WithinGaps(server, change, index) <==> NoStopBefore(server, change, index)
    decreases index
  {
    var last := LastUsed(server, change, index);
    if last.Some? {
      WithinGapsIffNoStop(server, change, last.value);
    }
    if NoStopBefore(server, change, index) {
      NoStopGoesBack(server, change, index);
    }
    if WithinGaps(server, change, index) {
      NoStopGoesOn(server, change, index);
    }
  }

  /** Between the last used index and `index` nothing changes. */
  lemma SameLastUsed(server: Server, change: nat, k: nat, index: nat)
    requires k <= index
    requires LastUsed(server, change, index).Some? ==> LastUsed(server, change, index).value < k
    ensures LastUsed(server, change, k) == LastUsed(server, change, index)
  {
    if k < index {
      assert !Used(server, change, index - 1);
      SameLastUsed(server, change, k, index - 1);
    }
  }

  /** Main result: below the cap, an index is visited exactly when the gaps
      between used addresses leading up to it are within the limit. */
  lemma VisitedIffWithinGaps(server: Server, change: nat, index: nat)
    requires index < 10_000
    ensures index < Visited(server, change) <==> WithinGaps(server, change, index)
    ensures Visited(server, change) <= 10_000
  {
    WithinGapsIffNoStop(server, change, index);
    var n := Visited(server, change);
    if n <= index {
      assert StopsAfter(server, change, n - 1);
    }
  }

  lemma {:induction false} FoundBelowHas(server: Server, change: nat, n: nat, index: nat, u: UtxoEntry)
    ensures FoundUtxo(u, change, index) in FoundBelow(server, change, n)
            <==> index < n && u in UtxosAt(server, change, index)
  {
    if n > 0 {
      FoundBelowHas(server, change, n - 1, index, u);
      var tags := Tag(UtxosAt(server, change, n - 1), change, n - 1);
      if index == n - 1 && u in UtxosAt(server, change, index) {
        var i :| 0 <= i < |tags| && UtxosAt(server, change, index)[i] == u;
        assert tags[i] == FoundUtxo(u, change, index);
      }
    }
  }

  /** Main result, completeness and its converse: the coins found on a chain are
      exactly those of the addresses below the cap that the gaps allow. */
  lemma FoundIffWithinGaps(server: Server, change: nat, index: nat, u: UtxoEntry)
    ensures FoundUtxo(u, change, index) in FoundBelow(server, change, Visited(server, change))
            <==> index < 10_000 && WithinGaps(server, change, index) && u in UtxosAt(server, change, index)
  {
    FoundBelowHas(server, change, Visited(server, change), index, u);
    if index < MAX_SCAN_ADDRESSES {
      VisitedIffWithinGaps(server, change, index);
    }
  }

  /** The two forms of the gap rule differ by one. From the start an address may
      be at most 19 steps away: twenty unused addresses end the scan. */
  lemma FirstGapIsShorter(server: Server, change: nat)
    requires forall k :: 0 <= k < 20 ==> !Used(server, change, k)
    ensures Visited(server, change) == 20
  {
    assert LastUsed(server, change, 20).None?;
    assert LastUsed(server, change, 19).None?;
    VisitedIffWithinGaps(server, change, 20);
    VisitedIffWithinGaps(server, change, 19);
  }

  /** From a used address it may be 20 steps away: the twentieth address after it
      is still visited, and if it and those between are unused it is the last. */
  lemma LaterGapIsTwenty(server: Server, change: nat, last: nat)
    requires last < Visited(server, change) && last + 21 < MAX_SCAN_ADDRESSES && Used(server, change, last)
    requires forall k :: last < k < last + 20 ==> !Used(server, change, k)
    ensures last + 20 < Visited(server, change)
    ensures !Used(server, change, last + 20) ==> Visited(server, change) == last + 21
  {
    VisitedIffWithinGaps(server, change, last);
    LastUsedIs(server, change, last, last + 20);
    VisitedIffWithinGaps(server, change, last + 20);
    if !Used(server, change, last + 20) {
      LastUsedIs(server, change, last, last + 21);
      VisitedIffWithinGaps(server, change, last + 21);
    }
  }

  lemma LastUsedIs(server: Server, change: nat, last: nat, index: nat)
    requires last < index && Used(server, change, last)
    requires forall k :: last < k < index ==> !Used(server, change, k)
    ensures LastUsed(server, change, index) == Some(last)
  {
    var l := LastUsed(server, change, index);
    assert l.Some?;
    assert !(l.value < last) && !(last < l.value);
  }

  // ----- failed queries ---------------------------------------------------

  /** The same server with every query answered: where `server` answered, with the
      same answer. */
  ghost predicate Repairs(repaired: Server, server: Server)
  {
    forall change, index :: RepairsAt(repaired, server, change, index)
  }

  predicate RepairsAt(repaired: Server, server: Server, change: nat, index: nat)
  {
    var r := server(change, index);
    if r.Answer? || r.DeriveFailed? then repaired(change, index) == r else repaired(change, index).Answer?
  }

  /** A failed query looks like an unused address, so the last used one can only be further back. */
  lemma RepairMovesLastUsed(repaired: Server, server: Server, change: nat, index: nat)
    requires Repairs(repaired, server)
    ensures match LastUsed(server, change, index)
            case None => true
            case Some(l) => LastUsed(repaired, change, index).Some? && l <= LastUsed(repaired, change, index).value
  {
    var l := LastUsed(server, change, index);
    if l.Some? {
      assert RepairsAt(repaired, server, change, l.value);
      assert Used(repaired, change, l.value);
    }
  }

  /** So failures never make a chain longer. */
  lemma FailuresOnlyShorten(repaired: Server, server: Server, change: nat)
    requires Repairs(repaired, server)
    ensures Visited(server, change) <= Visited(repaired, change)
  {
    var n := Visited(repaired, change);
    if n < MAX_SCAN_ADDRESSES {
      RepairMovesLastUsed(repaired, server, change, n);
      assert StopsAfter(repaired, change, n - 1);
      assert StopsAfter(server, change, n - 1);
    }
  }

  /** A scan with failures finds nothing that the scan without them does not. */
  lemma FailuresOnlyHide(repaired: Server, server: Server, change: nat, found: FoundUtxo)
    requires Repairs(repaired, server)
    requires found in FoundBelow(server, change, Visited(server, change))
    ensures found in FoundBelow(repaired, change, Visited(repaired, change))
  {
    FoundHasItsPlace(server, change, Visited(server, change), found);
    FailuresOnlyShorten(repaired, server, change);
    assert RepairsAt(repaired, server, change, found.index);
    FoundBelowHas(repaired, change, Visited(repaired, change), found.index, found.entry);
  }

  lemma {:induction false} FoundHasItsPlace(server: Server, change: nat, n: nat, found: FoundUtxo)
    requires found in FoundBelow(server, change, n)
    ensures found.change == change && found.index < n && found.entry in UtxosAt(server, change, found.index)
  {
    if found in FoundBelow(server, change, n - 1) {
      FoundHasItsPlace(server, change, n - 1, found);
    } else {
      assert found in Tag(UtxosAt(server, change, n - 1), change, n - 1);
    }
  }

  /** No query for a used address of the first `n` failed. */
  ghost predicate UsedAnswered(repaired: Server, server: Server, change: nat, n: nat)
  {
    forall i :: 0 <= i < n && Used(repaired, change, i) ==> server(change, i).Answer?
  }

  lemma {:induction false} SameBelow(repaired: Server, server: Server, change: nat, n: nat)
    requires Repairs(repaired, server) && UsedAnswered(repaired, server, change, n)
    ensures LastUsed(server, change, n) == LastUsed(repaired, change, n)
    ensures FoundBelow(server, change, n) == FoundBelow(repaired, change, n)
  {
    if n > 0 {
      SameBelow(repaired, server, change, n - 1);
      assert RepairsAt(repaired, server, change, n - 1);
      assert UtxosAt(server, change, n - 1) == UtxosAt(repaired, change, n - 1);
    }
  }

  lemma SameVisited(repaired: Server, server: Server, change: nat)
    requires Repairs(repaired, server) && UsedAnswered(repaired, server, change, Visited(repaired, change))
    ensures Visited(server, change) == Visited(repaired, change)
  {
    FailuresOnlyShorten(repaired, server, change);
    var n := Visited(server, change);
    if n < Visited(repaired, change) {
      SameBelow(repaired, server, change, n);
      assert StopsAfter(server, change, n - 1);
      assert StopsAfter(repaired, change, n - 1);
    }
  }

  /** The exact condition under which failures hide nothing on a chain: every used
      address that the scan without failures would visit did answer. */
  lemma SameFindsIffUsedAnswered(repaired: Server, server: Server, change: nat)
    requires Repairs(repaired, server)
    ensures FoundBelow(server, change, Visited(server, change)) == FoundBelow(repaired, change, Visited(repaired, change))
            <==> UsedAnswered(repaired, server, change, Visited(repaired, change))
  {
    if UsedAnswered(repaired, server, change, Visited(repaired, change)) {
      SameVisited(repaired, server, change);
      SameBelow(repaired, server, change, Visited(server, change));
    } else {
      var i :| 0 <= i < Visited(repaired, change) && Used(repaired, change, i) && !server(change, i).Answer?;
      var u := UtxosAt(repaired, change, i)[0];
      FoundBelowHas(repaired, change, Visited(repaired, change), i, u);
      FoundBelowHas(server, change, Visited(server, change), i, u);
    }
  }

  /** Coins at addresses 10 and 25, and a server that fails at 10. */
  function TwoCoins(failing: bool): Server
  {
    (change: nat, index: nat) =>
      if index == 10 && failing then QueryFailed
      else if index == 10 || index == 25 then Answer([UtxoEntry([], 0, 1)])
      else Answer([])
  }

  /** One failed query ends the gap early and hides, besides its own address, a
      coin at another address whose query would have been answered; the chain
      had answers and nothing found. */
  lemma FailureHidesAnsweredCoin(change: nat)
    ensures Repairs(TwoCoins(false), TwoCoins(true))
    ensures Visited(TwoCoins(true), change) == 20 && ChainAnswers(TwoCoins(true), change) > 0
    ensures FoundBelow(TwoCoins(true), change, Visited(TwoCoins(true), change)) == []
    ensures FoundUtxo(UtxoEntry([], 0, 1), change, 25)
            in FoundBelow(TwoCoins(false), change, Visited(TwoCoins(false), change))
  {
    ShortScanIsEmpty(TwoCoins(true), change);
    WholeScanReaches25(change);
  }

  lemma ShortScanIsEmpty(server: Server, change: nat)
    requires forall k :: 0 <= k < 20 ==> !Used(server, change, k)
    requires server(change, 0).Answer?
    ensures Visited(server, change) == 20 && ChainAnswers(server, change) > 0
    ensures FoundBelow(server, change, Visited(server, change)) == []
  {
    FirstGapIsShorter(server, change);
    NothingUsedNothingFound(server, change, Visited(server, change));
    AnswersGrow(server, change, 1, Visited(server, change));
  }

  lemma {:induction false} NothingUsedNothingFound(server: Server, change: nat, n: nat)
    requires forall k :: 0 <= k < n ==> !Used(server, change, k)
    ensures FoundBelow(server, change, n) == []
  {
    if n > 0 {
      NothingUsedNothingFound(server, change, n - 1);
      assert !Used(server, change, n - 1);
      assert Tag([], change, n - 1) == [];
    }
  }

  lemma WholeScanReaches25(change: nat)
    ensures FoundUtxo(UtxoEntry([], 0, 1), change, 25)
            in FoundBelow(TwoCoins(false), change, Visited(TwoCoins(false), change))
  {
    var h := TwoCoins(false);
    LastUsedNone(h, change, 10);
    LastUsedIs(h, change, 10, 25);
    assert WithinGaps(h, change, 10);
    assert h(change, 25).utxos == [UtxoEntry([], 0, 1)];
    FoundIffWithinGaps(h, change, 25, UtxoEntry([], 0, 1));
  }

  lemma LastUsedNone(server: Server, change: nat, index: nat)
    requires forall k :: 0 <= k < index ==> !Used(server, change, k)
    ensures LastUsed(server, change, index).None?
  {
  }

  lemma {:induction false} AnswersGrow(server: Server, change: nat, m: nat, n: nat)
    requires m <= n
    ensures AnsweredBelow(server, change, m) <= AnsweredBelow(server, change, n)
    decreases n - m
  {
    if m < n {
      AnswersGrow(server, change, m, n - 1);
    }
  }
}
