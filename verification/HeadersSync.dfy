/** Downloading a peer's header chain twice before keeping it (src/headerssync.cpp,
    src/headerssync.h). Hashes, the salted bit, block proofs and permitted difficulty
    transitions are arbitrary functions; work is counted modulo 2^256. */
module HeadersSyncs {

  const HEADER_COMMITMENT_PERIOD := 624
  const REDOWNLOAD_BUFFER_SIZE := 14827
  const TWO_256 := 0x1_0000000000000000_0000000000000000_0000000000000000_0000000000000000

  /** A number of 256 bits. */
  type Uint256 = x: nat | x < TWO_256

  datatype Header = Header(nVersion: int, hashPrevBlock: nat, hashMerkleRoot: nat, nTime: nat, nBits: nat, nNonce: nat)

  /** A header without the hash of the previous one. */
  datatype CompressedHeader = CompressedHeader(nVersion: int, hashMerkleRoot: nat, nTime: nat, nBits: nat,
                                               nNonce: nat) {
    function GetFullHeader(hashPrevBlock: nat): Header {
      Header(nVersion, hashPrevBlock, hashMerkleRoot, nTime, nBits, nNonce)
    }
  }

  function AddWork(a: nat, b: nat): nat {
    (a + b) % TWO_256
  }

  function Compress(h: Header): CompressedHeader {
    CompressedHeader(h.nVersion, h.hashMerkleRoot, h.nTime, h.nBits, h.nNonce)
  }

  /** What a sync takes from elsewhere, and where it starts. */
  datatype Params = Params(
    hash: Header -> nat,
    bit: nat -> bool,
    proof: nat -> nat,
    permitted: (nat, nat, nat) -> bool,
    chainStart: Header,
    startHeight: nat,
    startWork: Uint256,
    minimumRequiredWork: nat,
    commitOffset: nat,
    maxCommitments: nat)
  {
    /** The hash, and the nBits, of what comes before header i of a chain. */
    function HashBefore(s: seq<Header>, i: nat): nat
      requires i <= |s|
    {
      if i == 0 then hash(chainStart) else hash(s[i - 1])
    }

    function BitsBefore(s: seq<Header>, i: nat): nat
      requires i <= |s|
    {
      if i == 0 then chainStart.nBits else s[i - 1].nBits
    }

    /** The proofs of the first i headers, added up. */
    ghost function ProofSum(s: seq<Header>, i: nat): nat
      requires i <= |s|
    {
      if i == 0 then 0 else ProofSum(s, i - 1) + proof(s[i - 1].nBits)
    }

    /** The work of the chain with its first i headers: what it starts with and all their
        proofs, modulo 2^256. */
    ghost function WorkAt(s: seq<Header>, i: nat): nat
      requires i <= |s|
    {
      (startWork + ProofSum(s, i)) % TWO_256
    }

    /** Every header links to the one before it, the first to the start of the chain. */
    ghost predicate Continuous(s: seq<Header>) {
      forall i | 0 <= i < |s| :: s[i].hashPrevBlock == HashBefore(s, i)
    }

    ghost predicate Permitted(s: seq<Header>) {
      forall i | 0 <= i < |s| :: PermittedAt(s, i)
    }

    ghost predicate PermittedAt(s: seq<Header>, i: nat)
      requires i < |s|
    {
      permitted(startHeight + 1 + i, BitsBefore(s, i), s[i].nBits)
    }

    /** Whether a commitment is kept for header i of a chain. */
    predicate IsCommit(i: nat) {
      (startHeight + 1 + i) % HEADER_COMMITMENT_PERIOD == commitOffset
    }

    function Bit(h: Header): bool {
      bit(hash(h))
    }

    /** The commitments of the first n headers. */
    ghost function Commits(s: seq<Header>, n: nat): seq<bool>
      requires n <= |s|
    {
      if n == 0 then [] else Commits(s, n - 1) + if IsCommit(n - 1) then [Bit(s[n - 1])] else []
    }

    ghost function CommitCount(n: nat): nat {
      if n == 0 then 0 else CommitCount(n - 1) + if IsCommit(n - 1) then 1 else 0
    }

    // ----- appending a header -----

    lemma HashBeforeSame(s: seq<Header>, t: seq<Header>, i: nat)
      requires i <= |s| && s <= t
      ensures HashBefore(s, i) == HashBefore(t, i) && BitsBefore(s, i) == BitsBefore(t, i)
    {
      assert i > 0 ==> s[i - 1] == t[i - 1];
    }

    lemma {:induction false} WorkSame(s: seq<Header>, t: seq<Header>, i: nat)
      requires i <= |s| && s <= t
      ensures ProofSum(s, i) == ProofSum(t, i) && WorkAt(s, i) == WorkAt(t, i)
    {
      if i > 0 {
        assert s[i - 1] == t[i - 1];
        WorkSame(s, t, i - 1);
      }
    }

    lemma {:induction false} CommitsSame(s: seq<Header>, t: seq<Header>, n: nat)
      requires n <= |s| && s <= t
      ensures Commits(s, n) == Commits(t, n)
    {
      if n > 0 {
        assert s[n - 1] == t[n - 1];
        CommitsSame(s, t, n - 1);
      }
    }

    lemma {:induction false} CommitsLength(s: seq<Header>, n: nat)
      requires n <= |s|
      ensures |Commits(s, n)| == CommitCount(n)
    {
      if n > 0 {
        CommitsLength(s, n - 1);
      }
    }

    lemma {:induction false} CommitCountMonotone(m: nat, n: nat)
      requires m <= n
      ensures CommitCount(m) <= CommitCount(n)
      decreases n - m
    {
      if m < n {
        CommitCountMonotone(m + 1, n);
      }
    }

    lemma {:induction false} CommitsPrefix(s: seq<Header>, m: nat, n: nat)
      requires m <= n <= |s|
      ensures Commits(s, m) <= Commits(s, n)
      decreases n - m
    {
      if m < n {
        CommitsPrefix(s, m + 1, n);
      }
    }

    /** The commitment of header i is where the count of those before it says. */
    lemma CommitAt(s: seq<Header>, i: nat)
      requires IsCommit(i) && CommitCount(i) < CommitCount(|s|)
      ensures i < |s| && CommitCount(i) < |Commits(s, |s|)| && Commits(s, |s|)[CommitCount(i)] == Bit(s[i])
    {
      if i >= |s| {
        CommitCountMonotone(|s|, i);
      }
      CommitsLength(s, |s|);
      CommitsLength(s, i);
      CommitsPrefix(s, i + 1, |s|);
      assert Commits(s, i + 1) == Commits(s, i) + [Bit(s[i])];
      assert Commits(s, |s|)[CommitCount(i)] == Commits(s, i + 1)[CommitCount(i)];
    }

    lemma ExtendWork(s: seq<Header>, h: Header)
      ensures WorkAt(s + [h], |s| + 1) == AddWork(WorkAt(s, |s|), proof(h.nBits))
    {
      WorkSame(s, s + [h], |s|);
      AddedModulo(startWork + ProofSum(s, |s|), proof(h.nBits));
    }

    lemma AddedModulo(a: nat, b: nat)
      ensures (a + b) % TWO_256 == (a % TWO_256 + b) % TWO_256
    {
    }

    lemma ExtendCommits(s: seq<Header>, h: Header)
      ensures Commits(s + [h], |s| + 1) == Commits(s, |s|) + if IsCommit(|s|) then [Bit(h)] else []
    {
      hide IsCommit;
      CommitsSame(s, s + [h], |s|);
    }

    lemma ExtendLinks(s: seq<Header>, h: Header)
      requires Continuous(s) && h.hashPrevBlock == HashBefore(s, |s|)
      ensures Continuous(s + [h])
    {
      hide HashBefore;
      var t := s + [h];
      forall i | 0 <= i < |t|
        ensures t[i].hashPrevBlock == HashBefore(t, i)
      {
        HashBeforeSame(s, t, i);
      }
    }

    lemma ExtendAllPermitted(s: seq<Header>, h: Header)
      requires Permitted(s) && permitted(startHeight + 1 + |s|, BitsBefore(s, |s|), h.nBits)
      ensures Permitted(s + [h])
    {
      hide PermittedAt;
      forall i | 0 <= i < |s| + 1
        ensures PermittedAt(s + [h], i)
      {
        ExtendPermitted(s, h, i);
      }
    }

    lemma ExtendPermitted(s: seq<Header>, h: Header, i: nat)
      requires i <= |s| && Permitted(s) && permitted(startHeight + 1 + |s|, BitsBefore(s, |s|), h.nBits)
      ensures PermittedAt(s + [h], i)
    {
      HashBeforeSame(s, s + [h], i);
      assert i < |s| ==> PermittedAt(s, i);
    }
  }

  lemma CompressRestores(h: Header)
    ensures Compress(h).GetFullHeader(h.hashPrevBlock) == h
  {
  }

  /** Of any HEADER_COMMITMENT_PERIOD heights in a row exactly one carries a commitment. */
  lemma CommitInPeriod(p: Params, from: nat) returns (i: nat)
    requires p.commitOffset < HEADER_COMMITMENT_PERIOD
    ensures from <= i < from + HEADER_COMMITMENT_PERIOD && p.IsCommit(i)
    ensures forall j | from <= j < from + HEADER_COMMITMENT_PERIOD && p.IsCommit(j) :: j == i
  {
    var r := (p.startHeight + 1 + from) % HEADER_COMMITMENT_PERIOD;
    i := if r <= p.commitOffset then from + (p.commitOffset - r)
         else from + (p.commitOffset + HEADER_COMMITMENT_PERIOD - r);
  }

  /** Of 14827 headers in a row at least 23 carry commitments. */
  lemma {:induction false} ManyCommits(p: Params, from: nat, periods: nat)
    requires p.commitOffset < HEADER_COMMITMENT_PERIOD
    ensures p.CommitCount(from + periods * HEADER_COMMITMENT_PERIOD) >= p.CommitCount(from) + periods
  {
    if periods > 0 {
      ManyCommits(p, from, periods - 1);
      var start := from + (periods - 1) * HEADER_COMMITMENT_PERIOD;
      var i := CommitInPeriod(p, start);
      p.CommitCountMonotone(start, i);
      p.CommitCountMonotone(i + 1, start + HEADER_COMMITMENT_PERIOD);
    }
  }

  /** The count of commitments is that of the heights that carry one. */
  lemma {:induction false} CommitsCounted(p: Params, from: nat, n: nat)
    requires from <= n
    ensures |set i | from <= i < n && p.IsCommit(i)| == p.CommitCount(n) - p.CommitCount(from)
  {
    hide Params.IsCommit;
    if from < n {
      CommitsCounted(p, from, n - 1);
      var less := set i | from <= i < n - 1 && p.IsCommit(i);
      assert (set i | from <= i < n && p.IsCommit(i)) == less + if p.IsCommit(n - 1) then {n - 1} else {};
    }
  }

  datatype Phase = PRESYNC | REDOWNLOAD | FINAL

  datatype ProcessingResult = ProcessingResult(powValidatedHeaders: seq<Header>, success: bool, requestMore: bool)

  const NO_HEADER := Header(0, 0, 0, 0, 0, 0)

  function CompressAll(s: seq<Header>): (r: seq<CompressedHeader>)
    ensures |r| == |s|
  {
    seq(|s|, i requires 0 <= i < |s| => Compress(s[i]))
  }

  /** The chain s links up, with difficulty transitions all permitted. */
  ghost predicate Chain(p: Params, s: seq<Header>) {
    p.Continuous(s) && p.Permitted(s)
  }

  /** The first n headers of s agree with the commitments made for presync. */
  ghost predicate Matches(p: Params, presync: seq<Header>, s: seq<Header>, n: nat) {
    n <= |s| && forall i | 0 <= i < n && p.IsCommit(i) :: i < |presync| && p.Bit(s[i]) == p.Bit(presync[i])
  }

  /** The first n headers of s do not reach the work required, at any point. */
  ghost predicate BelowTarget(p: Params, s: seq<Header>, n: nat) {
    n <= |s| && forall i | 0 < i <= n :: p.WorkAt(s, i) < p.minimumRequiredWork
  }

  /** Header i of s is the first to reach the work required. */
  ghost predicate ReachesTarget(p: Params, s: seq<Header>, i: nat) {
    i < |s| && BelowTarget(p, s, i) && p.WorkAt(s, i + 1) >= p.minimumRequiredWork
  }

  /** Whether the first phase accepts s as a whole: it is a chain and its commitments fit. */
  ghost predicate Presyncs(p: Params, s: seq<Header>) {
    Chain(p, s) && p.CommitCount(|s|) <= p.maxCommitments
  }

  /** Whether the second phase accepts s as a whole: it is a chain that agrees with the
      first phase up to the work required, or altogether if that is not reached. */
  ghost predicate Resyncs(p: Params, presync: seq<Header>, s: seq<Header>) {
    Chain(p, s) && (CheckedUp(p, presync, s, true) || CheckedUp(p, presync, s, false))
  }

  /** One header of a message of the first phase, the k-th, is what the message stands or
      falls with. */
  lemma PresyncsAt(p: Params, before: seq<Header>, headers: seq<Header>, k: nat)
    requires k < |headers| && Presyncs(p, before + headers)
    ensures var s := before + headers[..k];
            && headers[k].hashPrevBlock == p.HashBefore(s, |s|)
            && p.permitted(p.startHeight + 1 + |s|, p.BitsBefore(s, |s|), headers[k].nBits)
            && (p.IsCommit(|s|) ==> p.CommitCount(|s|) < p.maxCommitments)
  {
    hide Params.IsCommit, Params.HashBefore, Params.BitsBefore, Params.CommitCount;
    var s, t := before + headers[..k], before + headers;
    assert t[..|s|] == s && t[|s|] == headers[k];
    p.HashBeforeSame(s, t, |s|);
    assert p.PermittedAt(t, |s|);
    CountNext(p, |s|);
    p.CommitCountMonotone(|s| + 1, |t|);
  }

  /** The headers of s from a position on whose commitments were found to match. */
  ghost function Matched(p: Params, presync: seq<Header>, s: seq<Header>, from: nat): set<nat> {
    set i | from <= i < |s| && p.IsCommit(i) && i < |presync| && p.Bit(s[i]) == p.Bit(presync[i])
  }

  lemma ExtendMatches(p: Params, presync: seq<Header>, s: seq<Header>, h: Header, n: nat)
    requires Matches(p, presync, s, n)
    ensures Matches(p, presync, s + [h], n)
    ensures n == |s| && (p.IsCommit(n) ==> n < |presync| && p.Bit(h) == p.Bit(presync[n])) ==>
              Matches(p, presync, s + [h], n + 1)
  {
  }

  lemma ExtendBelow(p: Params, s: seq<Header>, h: Header, n: nat)
    requires BelowTarget(p, s, n)
    ensures BelowTarget(p, s + [h], n)
    ensures n == |s| && p.WorkAt(s + [h], n + 1) < p.minimumRequiredWork ==> BelowTarget(p, s + [h], n + 1)
  {
    forall i | 0 < i <= n
      ensures p.WorkAt(s + [h], i) == p.WorkAt(s, i)
    {
      p.WorkSame(s, s + [h], i);
    }
  }

  lemma ExtendReaches(p: Params, s: seq<Header>, h: Header, i: nat)
    requires ReachesTarget(p, s, i)
    ensures ReachesTarget(p, s + [h], i)
  {
    ExtendBelow(p, s, h, i);
    p.WorkSame(s, s + [h], i + 1);
  }

  /** Header h may follow the chain s. */
  ghost predicate Follows(p: Params, s: seq<Header>, h: Header) {
    && h.hashPrevBlock == p.HashBefore(s, |s|)
    && p.permitted(p.startHeight + 1 + |s|, p.BitsBefore(s, |s|), h.nBits)
  }

  /** Header h, after s, agrees with the commitment made for it, if it is due for one. */
  ghost predicate Agrees(p: Params, presync: seq<Header>, s: seq<Header>, h: Header) {
    p.IsCommit(|s|) ==> |s| < |presync| && p.Bit(h) == p.Bit(presync[|s|])
  }

  ghost predicate HitsTarget(p: Params, s: seq<Header>, h: Header) {
    p.WorkAt(s + [h], |s| + 1) >= p.minimumRequiredWork
  }

  /** The accepted headers s have been checked as far as needed: up to the work required,
      or all of them. */
  ghost predicate CheckedUp(p: Params, presync: seq<Header>, s: seq<Header>, all: bool) {
    && (all ==> exists i: nat :: ReachesTarget(p, s, i) && Matches(p, presync, s, i))
    && (!all ==> BelowTarget(p, s, |s|) && Matches(p, presync, s, |s|))
  }

  lemma StillChecked(p: Params, presync: seq<Header>, s: seq<Header>, h: Header, wasAll: bool)
    requires CheckedUp(p, presync, s, wasAll)
    requires wasAll || HitsTarget(p, s, h) || Agrees(p, presync, s, h)
    ensures CheckedUp(p, presync, s + [h], wasAll || HitsTarget(p, s, h))
  {
    hide Params.IsCommit, Params.WorkAt, Matches, BelowTarget, ReachesTarget;
    if wasAll {
      var i :| ReachesTarget(p, s, i) && Matches(p, presync, s, i);
      ExtendReaches(p, s, h, i);
      ExtendMatches(p, presync, s, h, i);
      assert ReachesTarget(p, s + [h], i) && Matches(p, presync, s + [h], i);
    } else {
      ExtendBelow(p, s, h, |s|);
      ExtendMatches(p, presync, s, h, |s|);
      if HitsTarget(p, s, h) {
        NowReaches(p, s, h);
        assert ReachesTarget(p, s + [h], |s|) && Matches(p, presync, s + [h], |s|);
      }
    }
  }

  lemma NowReaches(p: Params, s: seq<Header>, h: Header)
    requires BelowTarget(p, s + [h], |s|) && HitsTarget(p, s, h)
    ensures ReachesTarget(p, s + [h], |s|)
  {
  }

  /** How many of the accepted headers s are released, if n were before: all of them once
      the work required is reached, otherwise those with enough others on top. */
  ghost function ReadyCount(p: Params, s: seq<Header>, n: nat): nat {
    if !BelowTarget(p, s, |s|) then |s|
    else if n + REDOWNLOAD_BUFFER_SIZE < |s| then |s| - REDOWNLOAD_BUFFER_SIZE
    else n
  }

  /** One header of a message of the second phase, the k-th, is what the message stands or
      falls with. */
  lemma ResyncsAt(p: Params, presync: seq<Header>, before: seq<Header>, headers: seq<Header>, k: nat, all: bool)
    requires k < |headers| && Resyncs(p, presync, before + headers)
    requires CheckedUp(p, presync, before + headers[..k], all)
    ensures var s := before + headers[..k];
            Follows(p, s, headers[k]) && (all || HitsTarget(p, s, headers[k]) || Agrees(p, presync, s, headers[k]))
  {
    hide Params.IsCommit, Params.HashBefore, Params.BitsBefore, Params.WorkAt, Params.Bit;
    var s, t := before + headers[..k], before + headers;
    assert t[..|s|] == s && t[|s|] == headers[k];
    p.HashBeforeSame(s, t, |s|);
    assert p.PermittedAt(t, |s|);
    assert t[..|s| + 1] == s + [headers[k]];
    if CheckedUp(p, presync, t, true) {
      var i: nat :| ReachesTarget(p, t, i) && Matches(p, presync, t, i);
      if i < |s| {
        p.WorkSame(s, t, i + 1);
      } else {
        p.WorkSame(s + [headers[k]], t, |s| + 1);
      }
    }
  }

  lemma CountNext(p: Params, n: nat)
    ensures p.CommitCount(n + 1) == p.CommitCount(n) + if p.IsCommit(n) then 1 else 0
  {
  }

  class HeadersSyncState {
    const p: Params
    var state: Phase
    var currentChainWork: nat
    var headerCommitments: seq<bool>
    var lastHeaderReceived: Header
    var currentHeight: nat
    var redownloadedHeaders: seq<CompressedHeader>
    var redownloadBufferLastHeight: nat
    var redownloadBufferLastHash: nat
    var redownloadBufferFirstPrevHash: nat
    var redownloadChainWork: nat
    var processAllRemainingHeaders: bool
    /** The headers accepted in either phase, and how many of the second were released. */
    ghost var presync: seq<Header>
    ghost var redl: seq<Header>
    ghost var released: nat

    ghost predicate PresyncOk()
      reads this
    {
      && redl == [] && released == 0 && !processAllRemainingHeaders
      && Chain(p, presync)
      && lastHeaderReceived == (if presync == [] then p.chainStart else presync[|presync| - 1])
      && currentHeight == p.startHeight + |presync|
      && currentChainWork == p.WorkAt(presync, |presync|)
      && headerCommitments == p.Commits(presync, |presync|)
      && |headerCommitments| <= p.maxCommitments
    }

    /** The buffer holds what is accepted and not released, without its links. */
    ghost predicate BufferOk()
      reads this
    {
      && released <= |redl| && (released == |redl| ==> redl == [])
      && redownloadedHeaders == CompressAll(redl[released..])
      && redownloadBufferFirstPrevHash == p.HashBefore(redl, released)
      && redownloadBufferLastHash == p.HashBefore(redl, |redl|)
      && redownloadBufferLastHeight == p.startHeight + |redl|
      && redownloadChainWork == p.WorkAt(redl, |redl|)
    }

    ghost predicate CommitmentsOk()
      reads this
    {
      && Chain(p, presync) && p.WorkAt(presync, |presync|) >= p.minimumRequiredWork
      && CheckedUp(p, presync, redl, processAllRemainingHeaders)
      && (!processAllRemainingHeaders ==>
            && p.CommitCount(|redl|) <= |p.Commits(presync, |presync|)|
            && headerCommitments == p.Commits(presync, |presync|)[p.CommitCount(|redl|)..])
    }

    ghost predicate RedownloadOk()
      reads this
    {
      Chain(p, redl) && BufferOk() && CommitmentsOk()
    }

    /** What was released is safe: the work required is reached, or enough of the chain
        above it, with enough commitments, has been seen and agreed. */
    ghost predicate ReleasedOk()
      reads this
    {
      && Chain(p, redl) && released <= |redl|
      && (released > 0 ==>
            || (exists i: nat :: ReachesTarget(p, redl, i) && Matches(p, presync, redl, i))
            || (released + REDOWNLOAD_BUFFER_SIZE <= |redl| && Matches(p, presync, redl, |redl|)))
    }

    ghost predicate Valid()
      reads this
    {
      && p.commitOffset < HEADER_COMMITMENT_PERIOD && ReleasedOk()
      && (state == PRESYNC ==> PresyncOk())
      && (state == REDOWNLOAD ==> RedownloadOk() && !processAllRemainingHeaders)
    }

    constructor (p: Params)
      requires p.commitOffset < HEADER_COMMITMENT_PERIOD
      ensures Valid() && this.p == p && state == PRESYNC && presync == []
    {
      this.p := p;
      state := PRESYNC;
      currentChainWork, currentHeight, lastHeaderReceived := p.startWork, p.startHeight, p.chainStart;
      headerCommitments, redownloadedHeaders := [], [];
      redownloadBufferLastHeight, redownloadBufferLastHash := 0, 0;
      redownloadBufferFirstPrevHash, redownloadChainWork := 0, 0;
      processAllRemainingHeaders := false;
      presync, redl, released := [], [], 0;
    }

    /** Clears all download state. */
    method Finalize()
      requires p.commitOffset < HEADER_COMMITMENT_PERIOD && ReleasedOk()
      modifies this
      ensures Valid() && state == FINAL
      ensures presync == old(presync) && redl == old(redl) && released == old(released)
      ensures headerCommitments == [] && redownloadedHeaders == [] && !processAllRemainingHeaders
    {
      headerCommitments, redownloadedHeaders := [], [];
      lastHeaderReceived := NO_HEADER;
      redownloadBufferLastHash, redownloadBufferFirstPrevHash := 0, 0;
      processAllRemainingHeaders := false;
      currentHeight := 0;
      state := FINAL;
    }

    /** Checks a header of the first phase and keeps a commitment to it if due. */
    method ValidateAndProcessSingleHeader(current: Header) returns (ok: bool)
      requires state == PRESYNC && PresyncOk() && current.hashPrevBlock == p.HashBefore(presync, |presync|)
      modifies this
      ensures redl == [] && released == 0 && state == PRESYNC
      ensures ok ==> PresyncOk() && presync == old(presync) + [current]
      ensures ok <==> && p.permitted(p.startHeight + 1 + |old(presync)|, p.BitsBefore(old(presync), |old(presync)|),
                                     current.nBits)
                      && (p.IsCommit(|old(presync)|) ==> |old(headerCommitments)| < p.maxCommitments)
    {
      hide AddWork, Params.IsCommit, Params.WorkAt, Params.Commits, Params.Permitted, Params.Continuous;
      var nextHeight := currentHeight + 1;
      if !p.permitted(nextHeight, lastHeaderReceived.nBits, current.nBits) {
        return false;
      }
      CommitHere(nextHeight, |presync|);
      if nextHeight % HEADER_COMMITMENT_PERIOD == p.commitOffset {
        headerCommitments := headerCommitments + [p.bit(p.hash(current))];
        if |headerCommitments| > p.maxCommitments {
          return false;
        }
      }
      currentChainWork := AddWork(currentChainWork, p.proof(current.nBits));
      lastHeaderReceived := current;
      currentHeight := nextHeight;
      p.ExtendWork(presync, current);
      p.ExtendCommits(presync, current);
      p.ExtendLinks(presync, current);
      p.ExtendAllPermitted(presync, current);
      presync := presync + [current];
      ok := true;
    }

    lemma CommitHere(height: nat, n: nat)
      requires height == p.startHeight + 1 + n
      ensures height % HEADER_COMMITMENT_PERIOD == p.commitOffset <==> p.IsCommit(n)
    {
    }

    /** The headers of a message link up among themselves. */
    ghost predicate Linked(headers: seq<Header>) {
      forall i | 0 < i < |headers| :: headers[i].hashPrevBlock == p.hash(headers[i - 1])
    }

    /** Takes in a message of the first phase; once the work required is reached the second
        phase starts from the beginning. */
    method ValidateAndStoreHeadersCommitments(headers: seq<Header>) returns (ok: bool)
      requires state == PRESYNC && PresyncOk() && headers != [] && Linked(headers)
      modifies this
      ensures redl == [] && released == 0 && state != FINAL
      ensures ok <==> Presyncs(p, old(presync) + headers)
      ensures ok ==> presync == old(presync) + headers
      ensures ok ==> (state == REDOWNLOAD <==> p.WorkAt(presync, |presync|) >= p.minimumRequiredWork)
      ensures ok && state == PRESYNC ==> PresyncOk()
      ensures ok && state == REDOWNLOAD ==> RedownloadOk() && !processAllRemainingHeaders
    {
      hide AddWork, Params.IsCommit, Params.WorkAt, Params.Commits, Params.Permitted, Params.Continuous, Presyncs,
           Chain, Params.CommitCount;
      ghost var before := presync;
      ghost var accepts := Presyncs(p, before + headers);
      if accepts {
        PresyncsAt(p, before, headers, 0);
        assert before + headers[..0] == before;
      }
      if headers[0].hashPrevBlock != p.hash(lastHeaderReceived) {
        return false;
      }
      var k := 0;
      while k < |headers|
        invariant 0 <= k <= |headers| && state == PRESYNC && PresyncOk() && presync == before + headers[..k]
        invariant k < |headers| ==> headers[k].hashPrevBlock == p.HashBefore(presync, |presync|)
      {
        assert headers[..k + 1] == headers[..k] + [headers[k]];
        p.CommitsLength(presync, |presync|);
        if accepts {
          PresyncsAt(p, before, headers, k);
        }
        var single := ValidateAndProcessSingleHeader(headers[k]);
        if !single {
          return false;
        }
        k := k + 1;
      }
      assert headers[..k] == headers;
      NowPresyncs();
      if currentChainWork >= p.minimumRequiredWork {
        BeginRedownload();
      }
      ok := true;
    }

    lemma NowPresyncs()
      requires PresyncOk()
      ensures Presyncs(p, presync)
    {
      p.CommitsLength(presync, |presync|);
    }

    method BeginRedownload()
      requires PresyncOk() && currentChainWork >= p.minimumRequiredWork
      modifies this
      ensures state == REDOWNLOAD && RedownloadOk() && !processAllRemainingHeaders
      ensures presync == old(presync) && redl == [] && released == 0
    {
      hide AddWork, Params.IsCommit, Params.Commits, Params.Permitted, Params.Continuous;
      redownloadedHeaders := [];
      redownloadBufferLastHeight := p.startHeight;
      redownloadBufferFirstPrevHash := p.hash(p.chainStart);
      redownloadBufferLastHash := p.hash(p.chainStart);
      redownloadChainWork := p.startWork;
      state := REDOWNLOAD;
      StartRedownload();
    }

    lemma StartRedownload()
      ensures p.ProofSum([], 0) == 0 && p.WorkAt([], 0) == p.startWork && p.CommitCount(0) == 0
      ensures p.Continuous([]) && p.Permitted([])
      ensures Matches(p, presync, [], 0) && BelowTarget(p, [], 0)
      ensures CompressAll([][0..]) == []
    {
    }

    // ----- the second phase -----

    /** The nBits of the header accepted last: it is still in the buffer, unless none was
        accepted yet. */
    method PreviousBits() returns (r: nat)
      requires BufferOk()
      ensures r == p.BitsBefore(redl, |redl|)
    {
      if redownloadedHeaders != [] {
        r := redownloadedHeaders[|redownloadedHeaders| - 1].nBits;
        assert redl[released..][|redl| - released - 1] == redl[|redl| - 1];
      } else {
        r := p.chainStart.nBits;
      }
    }

    /** Checks one commitment off the queue. */
    method CheckCommitment(h: Header) returns (ok: bool)
      requires CommitmentsOk() && p.IsCommit(|redl|)
      requires p.CommitCount(|redl|) <= |p.Commits(presync, |presync|)|
      requires headerCommitments == p.Commits(presync, |presync|)[p.CommitCount(|redl|)..]
      modifies this`headerCommitments
      ensures ok <==> Agrees(p, presync, redl, h)
      ensures ok ==> p.CommitCount(|redl| + 1) <= |p.Commits(presync, |presync|)|
                     && headerCommitments == p.Commits(presync, |presync|)[p.CommitCount(|redl| + 1)..]
    {
      hide Params.IsCommit, Params.WorkAt, Params.Commits, Params.Permitted, Params.Continuous, CheckedUp,
           Params.CommitCount;
      p.CommitsLength(presync, |presync|);
      CountNext(p, |redl|);
      if |headerCommitments| == 0 {
        NoneLeft(|redl|);
        return false;
      }
      p.CommitAt(presync, |redl|);
      var commitment := p.bit(p.hash(h));
      var expected := headerCommitments[0];
      headerCommitments := headerCommitments[1..];
      ok := commitment == expected;
    }

    lemma NoneLeft(n: nat)
      requires p.IsCommit(n) && p.CommitCount(n) == |p.Commits(presync, |presync|)|
      ensures n >= |presync|
    {
      p.CommitsLength(presync, |presync|);
      if n < |presync| {
        p.CommitCountMonotone(n + 1, |presync|);
      }
    }

    /** Counts in the work of a header and checks its commitment, unless the work required
        is reached. */
    method CheckHeader(header: Header, nextHeight: nat) returns (ok: bool)
      requires CommitmentsOk() && redownloadChainWork == p.WorkAt(redl, |redl|)
               && nextHeight == p.startHeight + 1 + |redl|
      modifies this`redownloadChainWork, this`processAllRemainingHeaders, this`headerCommitments
      ensures ok <==> old(processAllRemainingHeaders) || HitsTarget(p, redl, header) || Agrees(p, presync, redl, header)
      ensures ok ==> redownloadChainWork == p.WorkAt(redl + [header], |redl| + 1)
                     && processAllRemainingHeaders == (old(processAllRemainingHeaders) || HitsTarget(p, redl, header))
                     && CheckedUp(p, presync, redl + [header], processAllRemainingHeaders)
                     && (!processAllRemainingHeaders ==>
                           && p.CommitCount(|redl| + 1) <= |p.Commits(presync, |presync|)|
                           && headerCommitments == p.Commits(presync, |presync|)[p.CommitCount(|redl| + 1)..])
    {
      hide AddWork, Params.IsCommit, Params.WorkAt, Params.Commits, Params.Permitted, Params.Continuous, CheckedUp,
           Params.CommitCount, Params.Bit;
      ghost var wasAll := processAllRemainingHeaders;
      CountNext(p, |redl|);
      p.ExtendWork(redl, header);
      CommitHere(nextHeight, |redl|);
      redownloadChainWork := AddWork(redownloadChainWork, p.proof(header.nBits));
      ok := true;
      if redownloadChainWork >= p.minimumRequiredWork {
        processAllRemainingHeaders := true;
      }
      if !processAllRemainingHeaders && nextHeight % HEADER_COMMITMENT_PERIOD == p.commitOffset {
        ok := CheckCommitment(header);
      }
      if ok {
        StillChecked(p, presync, redl, header, wasAll);
      }
    }

    /** Checks a header of the second phase against the first and puts it into the buffer. */
    method ValidateAndStoreRedownloadedHeader(header: Header) returns (ok: bool)
      requires state == REDOWNLOAD && RedownloadOk()
      modifies this
      ensures state == REDOWNLOAD && presync == old(presync) && released == old(released)
      ensures ok ==> RedownloadOk() && redl == old(redl) + [header]
      ensures !ok ==> redl == old(redl)
      ensures ok <==> Follows(p, old(redl), header)
                      && (old(processAllRemainingHeaders) || HitsTarget(p, old(redl), header)
                          || Agrees(p, presync, old(redl), header))
      ensures ok ==> processAllRemainingHeaders == (old(processAllRemainingHeaders) || HitsTarget(p, old(redl), header))
    {
      hide AddWork, Params.IsCommit, Params.WorkAt, Params.Commits, Params.Permitted, Params.Continuous, CheckedUp,
           Agrees, HitsTarget, CompressAll, Params.CommitCount, Params.HashBefore, Params.BitsBefore, Compress;
      var nextHeight := redownloadBufferLastHeight + 1;
      if header.hashPrevBlock != redownloadBufferLastHash {
        return false;
      }
      var previousBits := PreviousBits();
      if !p.permitted(nextHeight, previousBits, header.nBits) {
        return false;
      }
      ok := CheckHeader(header, nextHeight);
      if !ok {
        return;
      }
      BufferMore(header);
      p.ExtendLinks(redl, header);
      p.ExtendAllPermitted(redl, header);
      redownloadedHeaders := redownloadedHeaders + [Compress(header)];
      redownloadBufferLastHeight := nextHeight;
      redownloadBufferLastHash := p.hash(header);
      redl := redl + [header];
    }

    lemma BufferMore(h: Header)
      requires released <= |redl|
      ensures CompressAll((redl + [h])[released..]) == CompressAll(redl[released..]) + [Compress(h)]
      ensures p.HashBefore(redl + [h], released) == p.HashBefore(redl, released)
      ensures p.HashBefore(redl + [h], |redl| + 1) == p.hash(h)
    {
      assert (redl + [h])[released..] == redl[released..] + [h];
      p.HashBeforeSame(redl, redl + [h], released);
    }

    ghost predicate Buffered()
      reads this
    {
      && released <= |redl|
      && redownloadedHeaders == CompressAll(redl[released..])
      && redownloadBufferFirstPrevHash == p.HashBefore(redl, released)
    }

    /** Takes the first header off the buffer. */
    method PopOne() returns (h: Header)
      requires p.Continuous(redl) && Buffered() && released < |redl|
      modifies this`redownloadedHeaders, this`redownloadBufferFirstPrevHash, this`released
      ensures Buffered() && released == old(released) + 1 && h == redl[old(released)]
    {
      hide CompressAll, Compress;
      BufferLess();
      h := redownloadedHeaders[0].GetFullHeader(redownloadBufferFirstPrevHash);
      redownloadedHeaders := redownloadedHeaders[1..];
      redownloadBufferFirstPrevHash := p.hash(h);
      released := released + 1;
    }

    /** Takes the headers off the buffer that have enough others on top, or all of them once
        the work required is reached, restoring their links. */
    method PopHeadersReadyForAcceptance() returns (ret: seq<Header>)
      requires p.Continuous(redl) && Buffered()
      modifies this`redownloadedHeaders, this`redownloadBufferFirstPrevHash, this`released
      ensures Buffered() && released >= old(released) && ret == redl[old(released)..released]
      ensures processAllRemainingHeaders ==> released == |redl|
      ensures !processAllRemainingHeaders ==>
                if |redl| - old(released) > REDOWNLOAD_BUFFER_SIZE then released + REDOWNLOAD_BUFFER_SIZE == |redl|
                else released == old(released)
    {
      hide Params.Continuous, CompressAll, Params.HashBefore;
      ret := [];
      ghost var from := released;
      while |redownloadedHeaders| > REDOWNLOAD_BUFFER_SIZE || (|redownloadedHeaders| > 0 && processAllRemainingHeaders)
        invariant Buffered() && from <= released && ret == redl[from..released]
        invariant !processAllRemainingHeaders ==> released == from || released + REDOWNLOAD_BUFFER_SIZE <= |redl|
        decreases |redownloadedHeaders|
      {
        var h := PopOne();
        ret := ret + [h];
      }
    }

    /** The first compressed header of the buffer, with its link restored, is the next
        header to release. */
    lemma BufferLess()
      requires p.Continuous(redl) && released < |redl|
      requires redownloadedHeaders == CompressAll(redl[released..])
               && redownloadBufferFirstPrevHash == p.HashBefore(redl, released)
      ensures redownloadedHeaders[0].GetFullHeader(redownloadBufferFirstPrevHash) == redl[released]
      ensures redownloadedHeaders[1..] == CompressAll(redl[released + 1..])
    {
      CompressRestores(redl[released]);
    }

    // ----- a message -----

    /** Whatever was released is buried under 14827 accepted headers that carry at least 23
        commitments, all found to match those of the first phase; only once the work
        required is reached, having matched up to there, is it not. */
    lemma SafelyBuried()
      requires Valid() && released > 0
      ensures || Buried()
              || (exists i: nat :: ReachesTarget(p, redl, i) && Matches(p, presync, redl, i))
      ensures state == REDOWNLOAD ==> Buried()
    {
      if released + REDOWNLOAD_BUFFER_SIZE <= |redl| && Matches(p, presync, redl, |redl|) {
        BuriedDeep();
      }
      if state == REDOWNLOAD {
        ReleasedBuried();
        BuriedDeep();
      }
    }

    ghost predicate Buried()
      reads this
    {
      released + 14827 <= |redl| && |Matched(p, presync, redl, released)| >= 23
    }

    lemma BuriedDeep()
      requires p.commitOffset < HEADER_COMMITMENT_PERIOD
      requires released + REDOWNLOAD_BUFFER_SIZE <= |redl| && Matches(p, presync, redl, |redl|)
      ensures Buried()
    {
      hide Params.IsCommit, Params.Bit;
      ManyCommits(p, released, 23);
      p.CommitCountMonotone(released + 23 * HEADER_COMMITMENT_PERIOD, |redl|);
      CommitsCounted(p, released, |redl|);
      assert Matched(p, presync, redl, released) == set i | released <= i < |redl| && p.IsCommit(i);
    }

    /** Takes in the headers of a message of the second phase. */
    method StoreRedownloaded(headers: seq<Header>) returns (ok: bool)
      requires state == REDOWNLOAD && RedownloadOk() && headers != []
      modifies this
      ensures state == REDOWNLOAD && presync == old(presync) && released == old(released)
      ensures Chain(p, redl) && (CheckedUp(p, presync, redl, true) || CheckedUp(p, presync, redl, false))
      ensures ok <==> Resyncs(p, presync, old(redl) + headers)
      ensures ok ==> RedownloadOk() && redl == old(redl) + headers
      ensures old(redl) + headers <= presync ==> ok
      ensures old(redl) <= redl
    {
      hide AddWork, Params.IsCommit, Params.WorkAt, Params.Commits, Params.Permitted, Params.Continuous, CheckedUp,
           Agrees, HitsTarget, RedownloadOk, Follows, Resyncs;
      ok := true;
      ghost var before := redl;
      ghost var accepts := Resyncs(p, presync, before + headers);
      var k := 0;
      while k < |headers|
        invariant 0 <= k <= |headers| && state == REDOWNLOAD && RedownloadOk() && ok
        invariant presync == old(presync) && released == old(released) && redl == before + headers[..k]
      {
        assert headers[..k + 1] == headers[..k] + [headers[k]];
        ReplayedFits(before, headers, k);
        ChainKept();
        if accepts {
          ResyncsAt(p, presync, before, headers, k, processAllRemainingHeaders);
        }
        ok := ValidateAndStoreRedownloadedHeader(headers[k]);
        if !ok {
          break;
        }
        k := k + 1;
      }
      if ok {
        ChainKept();
        assert headers[..k] == headers;
      }
    }

    lemma ChainKept()
      requires RedownloadOk()
      ensures Chain(p, redl) && CheckedUp(p, presync, redl, processAllRemainingHeaders)
      ensures Resyncs(p, presync, redl)
    {
    }

    /** The next header of a replay of the first phase is accepted. */
    lemma ReplayedFits(before: seq<Header>, headers: seq<Header>, k: nat)
      requires RedownloadOk() && k < |headers| && redl == before + headers[..k]
      ensures before + headers <= presync ==> Follows(p, redl, headers[k]) && Agrees(p, presync, redl, headers[k])
    {
      hide Params.IsCommit, Params.WorkAt, Params.Commits, CheckedUp;
      if before + headers <= presync {
        var n := |redl|;
        assert headers[k] == (before + headers)[n] == presync[n];
        assert redl == presync[..n] by {
          assert (before + headers)[..n] == redl;
        }
        p.HashBeforeSame(redl, presync, n);
        assert presync[n].hashPrevBlock == p.HashBefore(presync, n);
        assert p.PermittedAt(presync, n);
      }
    }

    /** What stays released is safe once more headers are checked. */
    lemma StaysReleased(was: nat, size: nat, all: bool)
      requires CheckedUp(p, presync, redl, all) && Chain(p, redl) && size <= |redl| && released <= |redl|
      requires was == 0 || was + REDOWNLOAD_BUFFER_SIZE <= size
      requires released == was || all || released + REDOWNLOAD_BUFFER_SIZE <= |redl|
      ensures ReleasedOk()
    {
      hide Matches, ReachesTarget, BelowTarget;
    }

    /** Before the work required is reached, only what is buried deep enough is released. */
    lemma ReleasedBuried()
      requires ReleasedOk() && CheckedUp(p, presync, redl, false)
      ensures released == 0 || released + REDOWNLOAD_BUFFER_SIZE <= |redl|
    {
      forall i: nat
        ensures !ReachesTarget(p, redl, i)
      {
      }
    }

    /** A message of the first phase. */
    method ProcessPresync(received: seq<Header>, fullHeadersMessage: bool) returns (ret: ProcessingResult)
      requires Valid() && state == PRESYNC && received != [] && Linked(received)
      modifies this
      ensures state != FINAL && redl == [] && released == 0 && ReleasedOk() && ret.powValidatedHeaders == []
      ensures ret.success && ret.requestMore ==> Valid()
      ensures ret.requestMore ==> ret.success
      ensures ret.success <==> Presyncs(p, old(presync) + received)
      ensures ret.success ==> presync == old(presync) + received
      ensures ret.success ==> (state == REDOWNLOAD <==> p.WorkAt(presync, |presync|) >= p.minimumRequiredWork)
      ensures ret.requestMore <==> ret.success && (fullHeadersMessage || state == REDOWNLOAD)
    {
      hide AddWork, Params.IsCommit, Params.WorkAt, Params.Commits, CheckedUp, Linked, PresyncOk, BufferOk, Chain,
           Presyncs;
      ret := ProcessingResult([], false, false);
      var ok := ValidateAndStoreHeadersCommitments(received);
      EmptyChain();
      if ok {
        ret := ret.(success := true, requestMore := fullHeadersMessage || state == REDOWNLOAD);
      }
    }

    lemma EmptyChain()
      ensures Chain(p, [])
    {
    }

    /** A message of the second phase. */
    method ProcessRedownload(received: seq<Header>, fullHeadersMessage: bool) returns (ret: ProcessingResult)
      requires Valid() && state == REDOWNLOAD && received != []
      modifies this
      ensures state == REDOWNLOAD && presync == old(presync) && old(redl) <= redl && old(released) <= released
              && ReleasedOk()
      ensures ret.powValidatedHeaders == redl[old(released)..released]
      ensures ret.success && ret.requestMore ==> Valid()
      ensures ret.requestMore ==> ret.success
      ensures !ret.success ==> released == old(released)
      ensures ret.success <==> Resyncs(p, presync, old(redl) + received)
      ensures ret.success ==> redl == old(redl) + received
      ensures ret.success ==> (ret.requestMore <==> fullHeadersMessage && BelowTarget(p, redl, |redl|))
      ensures ret.success ==> released == ReadyCount(p, redl, old(released))
      ensures fullHeadersMessage && old(redl) + received <= presync ==>
                && ret.success && redl == old(redl) + received
                && (ret.requestMore <==> BelowTarget(p, redl, |redl|))
                && (!ret.requestMore ==> released == |redl|)
    {
      hide AddWork, Params.IsCommit, Params.WorkAt, Params.Commits, Params.Permitted, Params.Continuous, CheckedUp,
           ReleasedOk, Chain, CompressAll, Params.HashBefore, Params.CommitCount, BelowTarget, Resyncs;
      ret := ProcessingResult([], false, false);
      ghost var was, size := released, |redl|;
      ReleasedBuried();
      var ok := StoreRedownloaded(received);
      if !ok {
        StaysReleased(was, size, CheckedUp(p, presync, redl, true));
        return;
      }
      ChainKept();
      Links();
      TargetKnown();
      ret := ret.(success := true);
      var headers := PopHeadersReadyForAcceptance();
      ret := ret.(powValidatedHeaders := headers);
      StaysReleased(was, size, processAllRemainingHeaders);
      if |redownloadedHeaders| == 0 && processAllRemainingHeaders {
      } else if fullHeadersMessage {
        ret := ret.(requestMore := true);
      }
    }

    lemma Links()
      requires Chain(p, redl)
      ensures p.Continuous(redl)
    {
    }

    lemma TargetKnown()
      requires CheckedUp(p, presync, redl, processAllRemainingHeaders)
      ensures processAllRemainingHeaders <==> !BelowTarget(p, redl, |redl|)
    {
      if processAllRemainingHeaders {
        var i: nat :| ReachesTarget(p, redl, i) && Matches(p, presync, redl, i);
        assert p.WorkAt(redl, i + 1) >= p.minimumRequiredWork;
      }
    }

    /** Processes the next message of headers, which link up among themselves. */
    method ProcessNextHeaders(received: seq<Header>, fullHeadersMessage: bool) returns (ret: ProcessingResult)
      requires Valid() && Linked(received)
      modifies this
      ensures Valid() && old(redl) <= redl && old(released) <= released
      ensures ret.powValidatedHeaders == redl[old(released)..released]
      ensures old(state) != PRESYNC ==> presync == old(presync) && state != PRESYNC
      ensures old(state) == PRESYNC && received != [] ==>
                && (ret.success <==> Presyncs(p, old(presync) + received))
                && (ret.success ==> presync == old(presync) + received)
                && (state == REDOWNLOAD <==> ret.success && p.WorkAt(presync, |presync|) >= p.minimumRequiredWork)
                && (state == PRESYNC <==> ret.success && fullHeadersMessage && state != REDOWNLOAD)
                && redl == [] && released == 0
      ensures old(state) == REDOWNLOAD && received != [] ==>
                && (ret.success <==> Resyncs(p, presync, old(redl) + received))
                && (ret.success ==> redl == old(redl) + received)
                && (ret.success ==> released == ReadyCount(p, redl, old(released)))
                && (state == REDOWNLOAD <==> ret.success && fullHeadersMessage && BelowTarget(p, redl, |redl|))
      ensures received != [] && old(state) != FINAL ==> (ret.requestMore <==> state != FINAL)
      ensures received == [] || old(state) == FINAL ==>
                && state == old(state) && ret == ProcessingResult([], false, false)
                && presync == old(presync) && redl == old(redl) && released == old(released)
      ensures !ret.success ==> ret.powValidatedHeaders == []
      ensures old(state) == REDOWNLOAD && received != [] && fullHeadersMessage && old(redl) + received <= presync ==>
                && ret.success && redl == old(redl) + received
                && (state == REDOWNLOAD <==> BelowTarget(p, redl, |redl|))
                && (state == FINAL ==> released == |redl|)
    {
      hide AddWork, Params.IsCommit, Params.WorkAt, Params.Commits, Params.Permitted, Params.Continuous, CheckedUp,
           Linked, PresyncOk, BufferOk, ReleasedOk, Chain, Presyncs, Resyncs, BelowTarget, ReadyCount;
      ret := ProcessingResult([], false, false);
      ValidFacts();
      if received == [] || state == FINAL {
        return;
      }
      if state == PRESYNC {
        ret := ProcessPresync(received, fullHeadersMessage);
      } else {
        ret := ProcessRedownload(received, fullHeadersMessage);
      }
      if !(ret.success && ret.requestMore) {
        Finalize();
      }
      ValidFacts();
    }

    lemma ValidFacts()
      requires Valid()
      ensures released <= |redl| && redl[released..released] == []
      ensures state == PRESYNC ==> redl == [] && released == 0
    {
    }
  }

  /** A message of headers, full or not. */
  datatype Message = Message(headers: seq<Header>, full: bool)

  /** Where a sync is: over, or at the headers accepted in each phase and how many of the
      second were released. */
  datatype Progress =
    | Over
    | Presync(presync: seq<Header>)
    | Redownload(presync: seq<Header>, redl: seq<Header>, released: nat)

  ghost function Where(sync: HeadersSyncState): Progress
    reads sync
  {
    match sync.state
    case FINAL => Over
    case PRESYNC => Presync(sync.presync)
    case REDOWNLOAD => Redownload(sync.presync, sync.redl, sync.released)
  }

  /** Where a message leads. */
  ghost function Next(p: Params, at: Progress, m: Message): Progress {
    if m.headers == [] then at
    else
      match at
      case Over => Over
      case Presync(presync) =>
        var s := presync + m.headers;
        if !Presyncs(p, s) then Over
        else if p.WorkAt(s, |s|) >= p.minimumRequiredWork then Redownload(s, [], 0)
        else if m.full then Presync(s)
        else Over
      case Redownload(presync, redl, released) =>
        var s := redl + m.headers;
        if Resyncs(p, presync, s) && m.full && BelowTarget(p, s, |s|)
        then Redownload(presync, s, ReadyCount(p, s, released))
        else Over
  }

  /** What a message makes released. */
  ghost function Released(p: Params, at: Progress, m: Message): seq<Header> {
    if m.headers == [] || !at.Redownload? then []
    else
      var s := at.redl + m.headers;
      if Resyncs(p, at.presync, s) && at.released <= ReadyCount(p, s, at.released) <= |s|
      then s[at.released..ReadyCount(p, s, at.released)]
      else []
  }

  ghost function AllReleased(p: Params, at: Progress, messages: seq<Message>): seq<Header>
    decreases |messages|
  {
    if messages == [] then []
    else Released(p, at, messages[0]) + AllReleased(p, Next(p, at, messages[0]), messages[1..])
  }

  /** Takes in one message. */
  method TakeMessage(sync: HeadersSyncState, m: Message) returns (released: seq<Header>)
    requires sync.Valid() && sync.Linked(m.headers)
    modifies sync
    ensures sync.Valid() && old(sync.redl) <= sync.redl && old(sync.released) <= sync.released <= |sync.redl|
    ensures released == sync.redl[old(sync.released)..sync.released]
    ensures Where(sync) == Next(sync.p, old(Where(sync)), m)
    ensures released == Released(sync.p, old(Where(sync)), m)
  {
    hide HeadersSyncState.Valid, HeadersSyncState.Linked, Presyncs, Resyncs, BelowTarget, Params.WorkAt;
    ghost var before, was := sync.redl, sync.released;
    sync.ValidFacts();
    var ret := sync.ProcessNextHeaders(m.headers, m.full);
    sync.ValidFacts();
    released := ret.powValidatedHeaders;
  }

  /** Whatever messages a peer sends, in either phase: what is released, put together, is
      what the messages say, the leading part of one chain that links up from the start,
      and is safe. */
  method Download(sync: HeadersSyncState, messages: seq<Message>) returns (accepted: seq<Header>)
    requires sync.Valid() && sync.state == PRESYNC
    requires forall m | m in messages :: sync.Linked(m.headers)
    modifies sync
    ensures accepted == AllReleased(sync.p, old(Where(sync)), messages)
    ensures sync.Valid() && accepted == sync.redl[..sync.released] && Chain(sync.p, accepted)
    ensures accepted != [] ==>
              || sync.Buried()
              || exists i: nat :: ReachesTarget(sync.p, sync.redl, i) && Matches(sync.p, sync.presync, sync.redl, i)
  {
    hide HeadersSyncState.Valid, HeadersSyncState.Linked, HeadersSyncState.Buried, ReachesTarget, Matches, Chain, Next,
         Released;
    accepted := [];
    sync.ValidFacts();
    ghost var all := AllReleased(sync.p, Where(sync), messages);
    assert messages[0..] == messages && [] + all == all;
    var k := 0;
    while k < |messages|
      invariant 0 <= k <= |messages| && sync.Valid() && sync.released <= |sync.redl|
      invariant accepted == sync.redl[..sync.released]
      invariant accepted + AllReleased(sync.p, Where(sync), messages[k..]) == all
    {
      ghost var before, was, at, sofar := sync.redl, sync.released, Where(sync), accepted;
      assert messages[k..][0] == messages[k] && messages[k..][1..] == messages[k + 1..];
      var more := TakeMessage(sync, messages[k]);
      accepted := accepted + more;
      ReleasedMore(before, sync.redl, was, sync.released);
      k := k + 1;
      assert sofar + (more + AllReleased(sync.p, Where(sync), messages[k..])) == all;
    }
    assert messages[k..] == [] && accepted + [] == accepted;
    ReleasedIsChain(sync);
    if sync.released > 0 {
      sync.SafelyBuried();
    }
  }

  lemma ReleasedIsChain(sync: HeadersSyncState)
    requires sync.Valid() && sync.released <= |sync.redl|
    ensures Chain(sync.p, sync.redl[..sync.released])
  {
    hide Params.HashBefore, Params.BitsBefore;
    var p, s, t := sync.p, sync.redl[..sync.released], sync.redl;
    forall i | 0 <= i < |s|
      ensures s[i].hashPrevBlock == p.HashBefore(s, i) && p.PermittedAt(s, i)
    {
      p.HashBeforeSame(s, t, i);
      assert p.PermittedAt(t, i);
    }
  }

  ghost function Joined(batches: seq<seq<Header>>): seq<Header> {
    if batches == [] then [] else batches[0] + Joined(batches[1..])
  }

  lemma ReachesIsNotBelow(p: Params, s: seq<Header>)
    requires s != [] && p.WorkAt(s, |s|) >= p.minimumRequiredWork
    ensures !BelowTarget(p, s, |s|)
  {
  }

  lemma JoinedSplit(batches: seq<seq<Header>>)
    requires batches != []
    ensures Joined(batches) == batches[0] + Joined(batches[1..])
  {
  }

  lemma BatchLinked(p: Params, chain: seq<Header>, before: seq<Header>, batch: seq<Header>)
    requires p.Continuous(chain) && before + batch <= chain
    ensures forall i | 0 < i < |batch| :: batch[i].hashPrevBlock == p.hash(batch[i - 1])
  {
    forall i | 0 < i < |batch|
      ensures batch[i].hashPrevBlock == p.hash(batch[i - 1])
    {
      var n := |before| + i;
      assert batch[i] == (before + batch)[n] == chain[n];
      assert batch[i - 1] == (before + batch)[n - 1] == chain[n - 1];
      assert chain[n].hashPrevBlock == p.HashBefore(chain, n);
    }
  }

  /** The sync is midway through a replay of chain: what is accepted, followed by rest, is
      the chain. */
  ghost predicate Replaying(sync: HeadersSyncState, chain: seq<Header>, rest: seq<Header>, accepted: seq<Header>)
    reads sync
  {
    && sync.Valid() && sync.presync == chain && sync.state != PRESYNC
    && sync.redl + rest == chain
    && sync.released <= |sync.redl| && accepted == sync.redl[..sync.released]
    && (sync.state == REDOWNLOAD ==> sync.redl == [] || BelowTarget(sync.p, sync.redl, |sync.redl|))
    && (sync.state == FINAL ==> sync.released == |sync.redl| && !BelowTarget(sync.p, sync.redl, |sync.redl|))
  }

  /** Serves one more batch of the chain. */
  method ReplayBatch(sync: HeadersSyncState, ghost chain: seq<Header>, batch: seq<Header>, ghost rest: seq<Header>,
                     accepted: seq<Header>)
    returns (accepted2: seq<Header>)
    requires Replaying(sync, chain, batch + rest, accepted) && sync.state == REDOWNLOAD && batch != []
    modifies sync
    ensures Replaying(sync, chain, rest, accepted2)
  {
    hide HeadersSyncState.Valid, BelowTarget, Params.WorkAt, HeadersSyncState.Linked;
    ghost var before, was := sync.redl, sync.released;
    assert before + batch <= chain by {
      assert before + batch + rest == before + (batch + rest);
    }
    ReplayChain(sync);
    BatchLinked(sync.p, chain, before, batch);
    LinkedBatch(sync, batch);
    var ret := sync.ProcessNextHeaders(batch, true);
    accepted2 := accepted + ret.powValidatedHeaders;
    ReleasedMore(before, sync.redl, was, sync.released);
    assert before + batch + rest == before + (batch + rest);
    StillReleased(sync);
  }

  lemma StillReleased(sync: HeadersSyncState)
    requires sync.Valid()
    ensures sync.released <= |sync.redl|
  {
  }

  lemma LinkedBatch(sync: HeadersSyncState, batch: seq<Header>)
    requires forall i | 0 < i < |batch| :: batch[i].hashPrevBlock == sync.p.hash(batch[i - 1])
    ensures sync.Linked(batch)
  {
  }

  lemma ReleasedMore(before: seq<Header>, after: seq<Header>, was: nat, now: nat)
    requires before <= after && was <= now && was <= |before|
    ensures now <= |after| ==> before[..was] + after[was..now] == after[..now]
  {
  }

  /** A peer that serves again, in full messages of any sizes, what it served in the first
      phase is never turned down; the sync ends once the work required is reached, with
      every header up to there released, links restored. */
  method Replay(sync: HeadersSyncState, batches: seq<seq<Header>>) returns (accepted: seq<Header>)
    requires sync.Valid() && sync.state == REDOWNLOAD && sync.redl == [] && sync.released == 0
    requires sync.presync != [] && Joined(batches) == sync.presync && forall k | 0 <= k < |batches| :: batches[k] != []
    modifies sync
    ensures sync.Valid() && sync.state == FINAL && sync.presync == old(sync.presync)
    ensures accepted == sync.redl && sync.redl <= sync.presync && sync.released == |sync.redl|
    ensures !BelowTarget(sync.p, sync.redl, |sync.redl|)
  {
    hide HeadersSyncState.Valid, BelowTarget, Params.WorkAt, Replaying;
    accepted := [];
    ghost var chain := sync.presync;
    var k := 0;
    ReplayChain(sync);
    assert batches[0..] == batches;
    ReplayStarts(sync, chain);
    while sync.state == REDOWNLOAD
      invariant 0 <= k <= |batches| && Replaying(sync, chain, Joined(batches[k..]), accepted)
      decreases |batches| - k
    {
      NotAllServed(sync, chain, batches[k..], accepted);
      JoinedSplit(batches[k..]);
      assert batches[k..][1..] == batches[k + 1..];
      accepted := ReplayBatch(sync, chain, batches[k], Joined(batches[k + 1..]), accepted);
      k := k + 1;
    }
    ReplayOver(sync, chain, Joined(batches[k..]), accepted);
  }

  lemma ReplayStarts(sync: HeadersSyncState, chain: seq<Header>)
    requires sync.Valid() && sync.state == REDOWNLOAD && sync.redl == [] && sync.released == 0 && sync.presync == chain
    ensures Replaying(sync, chain, chain, [])
  {
    assert [] + chain == chain;
  }

  lemma ReplayOver(sync: HeadersSyncState, chain: seq<Header>, rest: seq<Header>, accepted: seq<Header>)
    requires Replaying(sync, chain, rest, accepted) && sync.state != REDOWNLOAD
    ensures sync.Valid() && sync.state == FINAL && sync.presync == chain && accepted == sync.redl && sync.redl <= chain
    ensures sync.released == |sync.redl| && !BelowTarget(sync.p, sync.redl, |sync.redl|)
  {
    hide HeadersSyncState.Valid, BelowTarget;
    assert sync.redl[..|sync.redl|] == sync.redl;
  }

  lemma ReplayChain(sync: HeadersSyncState)
    requires sync.Valid() && sync.state == REDOWNLOAD
    ensures sync.p.Continuous(sync.presync) && sync.p.WorkAt(sync.presync, |sync.presync|) >= sync.p.minimumRequiredWork
  {
  }

  /** While the second phase goes on, the replay is not complete. */
  lemma NotAllServed(sync: HeadersSyncState, chain: seq<Header>, rest: seq<seq<Header>>, accepted: seq<Header>)
    requires chain != [] && Replaying(sync, chain, Joined(rest), accepted) && sync.state == REDOWNLOAD
    ensures rest != []
  {
    if rest == [] {
      assert sync.redl + [] == sync.redl;
      ReplayChain(sync);
      ReachesIsNotBelow(sync.p, chain);
    }
  }
}
