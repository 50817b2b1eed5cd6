/** Low-work headers sync: a peer's chain is downloaded twice, first keeping only one-bit commitments, then
    checking them and releasing headers once enough of them were checked. */
module HeadersSyncs {
  type Hash = nat

  datatype Header = Header(version: int, prev: Hash, merkleRoot: Hash, time: nat, bits: nat, nonce: nat)

  /** A header without the hash of its predecessor. */
  datatype Compressed = Compressed(version: int, merkleRoot: Hash, time: nat, bits: nat, nonce: nat)

  function Compress(h: Header): Compressed {
    Compressed(h.version, h.merkleRoot, h.time, h.bits, h.nonce)
  }

  function FullHeader(c: Compressed, prev: Hash): Header {
    Header(c.version, prev, c.merkleRoot, c.time, c.bits, c.nonce)
  }

  /** What does not change during a sync: the hash and proof functions, the secret commitment function and
      offset, the parameters, and the block the peer's chain builds on. */
  datatype Rules = Rules(
    hash: Header -> Hash, bit: Hash -> bool, permitted: (int, nat, nat) -> bool, proof: nat -> nat,
    period: nat, offset: nat, bufferSize: nat, minimumWork: nat, maxCommitments: nat,
    start: Header, startHeight: nat, startWork: nat)

  /** What the source demands of its parameters: a period, and an offset drawn from it. The buffer may have any
      size; what a size of zero costs is the subject of `BufferSizeDecides` and `WholeSyncSucceeds`. */
  ghost predicate RulesOk(r: Rules) {
    r.period > 0 && r.offset < r.period
  }

  datatype Phase = Presync | Redownload | Final

  datatype Sync = Sync(
    phase: Phase, work: nat, last: Header, height: int, commitments: seq<bool>,
    buffer: seq<Compressed>, bufferHeight: int, bufferLastHash: Hash, bufferFirstPrev: Hash,
    bufferWork: nat, processAll: bool)

  datatype Outcome = Good(sync: Sync) | Bad(sync: Sync)

  datatype ProcessingResult = ProcessingResult(headers: seq<Header>, success: bool, requestMore: bool)

  const NULL_HEADER := Header(0, 0, 0, 0, 0, 0)

  // ----- the steps

  function Initial(r: Rules): Sync {
    Sync(Presync, r.startWork, r.start, r.startHeight, [], [], 0, 0, 0, 0, false)
  }

  function Finalized(s: Sync): Sync {
    s.(phase := Final, commitments := [], last := NULL_HEADER, buffer := [], bufferLastHash := 0,
       bufferFirstPrev := 0, processAll := false, height := 0)
  }

  /** Whether a commitment is kept for a height. */
  predicate Commits(r: Rules, height: int)
    requires r.period > 0
  {
    height % r.period == r.offset
  }

  /** First download: check and commit to one header. */
  function PresyncOne(r: Rules, s: Sync, h: Header): Outcome
    requires r.period > 0
  {
    var height := s.height + 1;
    if !r.permitted(height, s.last.bits, h.bits) then Bad(s)
    else
      var s1 := if Commits(r, height) then s.(commitments := s.commitments + [r.bit(r.hash(h))]) else s;
      if Commits(r, height) && |s1.commitments| > r.maxCommitments then Bad(s1)
      else Good(s1.(work := s1.work + r.proof(h.bits), last := h, height := height))
  }

  function PresyncAll(r: Rules, s: Sync, headers: seq<Header>): Outcome
    requires r.period > 0
    decreases |headers|
  {
    if headers == [] then Good(s)
    else match PresyncOne(r, s, headers[0])
      case Good(n) => PresyncAll(r, n, headers[1..])
      case Bad(n) => Bad(n)
  }

  function StartRedownload(r: Rules, s: Sync): Sync {
    s.(phase := Redownload, buffer := [], bufferHeight := r.startHeight, bufferFirstPrev := r.hash(r.start),
       bufferLastHash := r.hash(r.start), bufferWork := r.startWork)
  }

  function PresyncMessage(r: Rules, s: Sync, headers: seq<Header>): Outcome
    requires r.period > 0 && headers != []
  {
    if headers[0].prev != r.hash(s.last) then Bad(s)
    else match PresyncAll(r, s, headers)
      case Bad(n) => Bad(n)
      case Good(n) => if n.work >= r.minimumWork then Good(StartRedownload(r, n)) else Good(n)
  }

  /** Second download: check one header against its commitment, if any, and buffer it. */
  function RedownloadOne(r: Rules, s: Sync, h: Header): Outcome
    requires r.period > 0
  {
    var height := s.bufferHeight + 1;
    var previousBits := if s.buffer != [] then s.buffer[|s.buffer| - 1].bits else r.start.bits;
    if h.prev != s.bufferLastHash || !r.permitted(height, previousBits, h.bits) then Bad(s)
    else
      var work := s.bufferWork + r.proof(h.bits);
      var s1 := s.(bufferWork := work, processAll := s.processAll || work >= r.minimumWork);
      var checks := !s1.processAll && Commits(r, height);
      if checks && s1.commitments == [] then Bad(s1)
      else
        var s2 := if checks then s1.(commitments := s1.commitments[1..]) else s1;
        if checks && r.bit(r.hash(h)) != s1.commitments[0] then Bad(s2)
        else Good(s2.(buffer := s2.buffer + [Compress(h)], bufferHeight := height, bufferLastHash := r.hash(h)))
  }

  function RedownloadAll(r: Rules, s: Sync, headers: seq<Header>): Outcome
    requires r.period > 0
    decreases |headers|
  {
    if headers == [] then Good(s)
    else match RedownloadOne(r, s, headers[0])
      case Good(n) => RedownloadAll(r, n, headers[1..])
      case Bad(n) => Bad(n)
  }

  predicate Ready(r: Rules, s: Sync) {
    |s.buffer| > r.bufferSize || (|s.buffer| > 0 && s.processAll)
  }

  /** Release the headers at the front of the buffer that are ready for acceptance. */
  function Popped(r: Rules, s: Sync): (Sync, seq<Header>)
    decreases |s.buffer|
  {
    if !Ready(r, s) then (s, [])
    else
      var h := FullHeader(s.buffer[0], s.bufferFirstPrev);
      var (n, headers) := Popped(r, s.(buffer := s.buffer[1..], bufferFirstPrev := r.hash(h)));
      (n, [h] + headers)
  }

  function RedownloadMessage(r: Rules, s: Sync, headers: seq<Header>, fullMessage: bool): (Sync, ProcessingResult)
    requires r.period > 0
  {
    match RedownloadAll(r, s, headers)
    case Bad(n) => (Finalized(n), ProcessingResult([], false, false))
    case Good(n) =>
      var (p, released) := Popped(r, n);
      if p.buffer == [] && p.processAll then (Finalized(p), ProcessingResult(released, true, false))
      else if fullMessage then (p, ProcessingResult(released, true, true))
      else (Finalized(p), ProcessingResult(released, true, false))
  }

  /** Process a message of headers. */
  function Process(r: Rules, s: Sync, headers: seq<Header>, fullMessage: bool): (Sync, ProcessingResult)
    requires r.period > 0
  {
    if headers == [] || s.phase == Final then (s, ProcessingResult([], false, false))
    else if s.phase == Presync then
      match PresyncMessage(r, s, headers)
      case Bad(n) => (Finalized(n), ProcessingResult([], false, false))
      case Good(n) =>
        if fullMessage || n.phase == Redownload then (n, ProcessingResult([], true, true))
        else (Finalized(n), ProcessingResult([], true, false))
    else RedownloadMessage(r, s, headers, fullMessage)
  }

  // ----- chains

  /** The last header of a chain that builds on the starting block. */
  function Tip(r: Rules, chain: seq<Header>): Header {
    if chain == [] then r.start else chain[|chain| - 1]
  }

  ghost predicate Linked(r: Rules, chain: seq<Header>) {
    forall i | 0 <= i < |chain| :: LinksAt(r, chain, i)
  }

  /** A header names its predecessor, and changes the difficulty as permitted. */
  ghost predicate LinksAt(r: Rules, chain: seq<Header>, i: int)
    requires 0 <= i < |chain|
  {
    && chain[i].prev == r.hash(Tip(r, chain[..i]))
    && r.permitted(r.startHeight + i + 1, Tip(r, chain[..i]).bits, chain[i].bits)
  }

  /** What the second download makes sure of: with a buffer size of zero, the buffer may be empty, and then the
      difficulty is compared with that of the starting block instead of the predecessor's. */
  ghost predicate ChainsAt(r: Rules, chain: seq<Header>, i: int)
    requires 0 <= i < |chain|
  {
    && chain[i].prev == r.hash(Tip(r, chain[..i]))
    && (|| r.permitted(r.startHeight + i + 1, Tip(r, chain[..i]).bits, chain[i].bits)
        || (r.bufferSize == 0 && r.permitted(r.startHeight + i + 1, r.start.bits, chain[i].bits)))
  }

  ghost predicate Chained(r: Rules, chain: seq<Header>) {
    forall i | 0 <= i < |chain| :: ChainsAt(r, chain, i)
  }

  /** With a buffer that holds anything the two are the same. */
  lemma ChainedIsLinked(r: Rules, chain: seq<Header>)
    requires r.bufferSize > 0
    ensures Chained(r, chain) <==> Linked(r, chain)
  {
    forall i | 0 <= i < |chain| ensures ChainsAt(r, chain, i) <==> LinksAt(r, chain, i) {
    }
  }

  function Work(r: Rules, chain: seq<Header>): nat {
    if chain == [] then r.startWork else Work(r, chain[..|chain| - 1]) + r.proof(chain[|chain| - 1].bits)
  }

  /** The commitments to a chain, by height. */
  function Bits(r: Rules, chain: seq<Header>): seq<bool>
    requires r.period > 0
  {
    if chain == [] then []
    else
      Bits(r, chain[..|chain| - 1]) +
      if Commits(r, r.startHeight + |chain|) then [r.bit(r.hash(chain[|chain| - 1]))] else []
  }

  function CompressAll(chain: seq<Header>): seq<Compressed> {
    seq(|chain|, i requires 0 <= i < |chain| => Compress(chain[i]))
  }

  lemma LinkedMore(r: Rules, chain: seq<Header>, h: Header)
    requires Linked(r, chain) && h.prev == r.hash(Tip(r, chain))
    requires r.permitted(r.startHeight + |chain| + 1, Tip(r, chain).bits, h.bits)
    ensures Linked(r, chain + [h])
  {
    var more := chain + [h];
    forall i | 0 <= i < |more| ensures LinksAt(r, more, i) {
      assert more[..i] == chain[..i];
      if i < |chain| {
        assert LinksAt(r, chain, i);
      } else {
        assert chain[..i] == chain;
      }
    }
  }

  lemma ChainedMore(r: Rules, chain: seq<Header>, h: Header)
    requires Chained(r, chain) && h.prev == r.hash(Tip(r, chain))
    requires || r.permitted(r.startHeight + |chain| + 1, Tip(r, chain).bits, h.bits)
             || (r.bufferSize == 0 && r.permitted(r.startHeight + |chain| + 1, r.start.bits, h.bits))
    ensures Chained(r, chain + [h])
  {
    var more := chain + [h];
    forall i | 0 <= i < |more| ensures ChainsAt(r, more, i) {
      assert more[..i] == chain[..i];
      if i < |chain| {
        assert ChainsAt(r, chain, i);
      } else {
        assert chain[..i] == chain;
      }
    }
  }

  lemma LinkedPrefix(r: Rules, chain: seq<Header>, n: nat)
    requires Linked(r, chain) && n <= |chain|
    ensures Linked(r, chain[..n])
  {
    forall i | 0 <= i < n ensures LinksAt(r, chain[..n], i) {
      assert LinksAt(r, chain, i);
      assert chain[..n][..i] == chain[..i];
    }
  }

  lemma {:induction false} WorkMore(r: Rules, chain: seq<Header>, h: Header)
    ensures Work(r, chain + [h]) == Work(r, chain) + r.proof(h.bits)
  {
    assert (chain + [h])[..|chain|] == chain;
  }

  lemma {:induction false} BitsMore(r: Rules, chain: seq<Header>, h: Header)
    requires r.period > 0
    ensures Bits(r, chain + [h]) == Bits(r, chain) + if Commits(r, r.startHeight + |chain| + 1) then [r.bit(r.hash(h))] else []
  {
    assert (chain + [h])[..|chain|] == chain;
  }
}
