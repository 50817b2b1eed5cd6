/** The headers sync as the object that processes a peer's messages. */
module HeadersSyncStates {
  import opened HeadersSyncs

  class HeadersSyncState {
    const rules: Rules
    var phase: Phase
    var currentChainWork: nat
    var lastHeaderReceived: Header
    var currentHeight: int
    var headerCommitments: seq<bool>
    var redownloadedHeaders: seq<Compressed>
    var bufferLastHeight: int
    var bufferLastHash: Hash
    var bufferFirstPrevHash: Hash
    var redownloadChainWork: nat
    var processAllRemainingHeaders: bool

    function State(): Sync
      reads this
    {
      Sync(phase, currentChainWork, lastHeaderReceived, currentHeight, headerCommitments, redownloadedHeaders,
           bufferLastHeight, bufferLastHash, bufferFirstPrevHash, redownloadChainWork, processAllRemainingHeaders)
    }

    constructor (r: Rules)
      requires r.period > 0
      ensures rules == r && State() == Initial(r)
    {
      rules, phase, currentChainWork, lastHeaderReceived, currentHeight := r, Presync, r.startWork, r.start, r.startHeight;
      headerCommitments, redownloadedHeaders, bufferLastHeight, bufferLastHash := [], [], 0, 0;
      bufferFirstPrevHash, redownloadChainWork, processAllRemainingHeaders := 0, 0, false;
    }

    method Finalize()
      modifies this
      ensures State() == Finalized(old(State()))
    {
      headerCommitments := [];
      lastHeaderReceived := NULL_HEADER;
      redownloadedHeaders := [];
      bufferLastHash := 0;
      bufferFirstPrevHash := 0;
      processAllRemainingHeaders := false;
      currentHeight := 0;
      phase := Final;
    }

    /** The outcome of a step as a flag and the new state. */
    ghost predicate Did(o: Outcome, ok: bool)
      reads this
    {
      o == if ok then Good(State()) else Bad(State())
    }

    method ValidateAndProcessSingleHeader(h: Header) returns (ok: bool)
      requires rules.period > 0
      modifies this
      ensures Did(PresyncOne(rules, old(State()), h), ok)
    {
      var nextHeight := currentHeight + 1;
      if !rules.permitted(nextHeight, lastHeaderReceived.bits, h.bits) {
        return false;
      }
      if nextHeight % rules.period == rules.offset {
        headerCommitments := headerCommitments + [rules.bit(rules.hash(h))];
        if |headerCommitments| > rules.maxCommitments {
          return false;
        }
      }
      currentChainWork := currentChainWork + rules.proof(h.bits);
      lastHeaderReceived := h;
      currentHeight := nextHeight;
      ok := true;
    }

    method ValidateAndStoreHeadersCommitments(headers: seq<Header>) returns (ok: bool)
      requires rules.period > 0 && headers != []
      modifies this
      ensures Did(PresyncMessage(rules, old(State()), headers), ok)
    {
      hide PresyncOne;
      if headers[0].prev != rules.hash(lastHeaderReceived) {
        return false;
      }
      assert headers[0..] == headers;
      for i := 0 to |headers|
        invariant PresyncAll(rules, old(State()), headers) == PresyncAll(rules, State(), headers[i..])
      {
        assert headers[i..][1..] == headers[i + 1..];
        ok := ValidateAndProcessSingleHeader(headers[i]);
        if !ok {
          return;
        }
      }
      if currentChainWork >= rules.minimumWork {
        redownloadedHeaders := [];
        bufferLastHeight := rules.startHeight;
        bufferFirstPrevHash := rules.hash(rules.start);
        bufferLastHash := rules.hash(rules.start);
        redownloadChainWork := rules.startWork;
        phase := Redownload;
      }
      ok := true;
    }

    method ValidateAndStoreRedownloadedHeader(h: Header) returns (ok: bool)
      requires rules.period > 0
      modifies this
      ensures Did(RedownloadOne(rules, old(State()), h), ok)
    {
      var nextHeight := bufferLastHeight + 1;
      if h.prev != bufferLastHash {
        return false;
      }
      var previousBits := rules.start.bits;
      if redownloadedHeaders != [] {
        previousBits := redownloadedHeaders[|redownloadedHeaders| - 1].bits;
      }
      if !rules.permitted(nextHeight, previousBits, h.bits) {
        return false;
      }
      redownloadChainWork := redownloadChainWork + rules.proof(h.bits);
      if redownloadChainWork >= rules.minimumWork {
        processAllRemainingHeaders := true;
      }
      if !processAllRemainingHeaders && nextHeight % rules.period == rules.offset {
        if headerCommitments == [] {
          return false;
        }
        var commitment, expected := rules.bit(rules.hash(h)), headerCommitments[0];
        headerCommitments := headerCommitments[1..];
        if commitment != expected {
          return false;
        }
      }
      redownloadedHeaders := redownloadedHeaders + [Compress(h)];
      bufferLastHeight := nextHeight;
      bufferLastHash := rules.hash(h);
      ok := true;
    }

    method PopHeadersReadyForAcceptance() returns (released: seq<Header>)
      modifies this
      ensures (State(), released) == Popped(rules, old(State()))
    {
      released := [];
      assert released + Popped(rules, State()).1 == Popped(rules, State()).1;
      while |redownloadedHeaders| > rules.bufferSize || (|redownloadedHeaders| > 0 && processAllRemainingHeaders)
        invariant Popped(rules, old(State())) == (Popped(rules, State()).0, released + Popped(rules, State()).1)
        decreases |redownloadedHeaders|
      {
        PopStep(rules, State(), released);
        released := released + [FullHeader(redownloadedHeaders[0], bufferFirstPrevHash)];
        redownloadedHeaders := redownloadedHeaders[1..];
        bufferFirstPrevHash := rules.hash(released[|released| - 1]);
      }
      assert released + [] == released;
    }

    /** Process the next message of headers from the peer. */
    method ProcessNextHeaders(headers: seq<Header>, fullMessage: bool) returns (ret: ProcessingResult)
      requires rules.period > 0
      modifies this
      ensures (State(), ret) == Process(rules, old(State()), headers, fullMessage)
    {
      ret := ProcessingResult([], false, false);
      if headers == [] || phase == Final {
        return;
      }
      if phase == Presync {
        var ok := ValidateAndStoreHeadersCommitments(headers);
        ret := ret.(success := ok, requestMore := ok && (fullMessage || phase == Redownload));
      } else {
        ret := RedownloadHeaders(headers, fullMessage);
      }
      if !(ret.success && ret.requestMore) {
        Finalize();
      }
    }

    /** The part of processing a message that belongs to the second download. */
    method RedownloadHeaders(headers: seq<Header>, fullMessage: bool) returns (ret: ProcessingResult)
      requires rules.period > 0
      modifies this
      ensures RedownloadMessage(rules, old(State()), headers, fullMessage) ==
              (if ret.success && ret.requestMore then State() else Finalized(State()), ret)
    {
      ret := ProcessingResult([], true, false);
      assert headers[0..] == headers;
      for i := 0 to |headers|
        invariant RedownloadAll(rules, old(State()), headers) == RedownloadAll(rules, State(), headers[i..])
      {
        assert headers[i..][1..] == headers[i + 1..];
        var ok := ValidateAndStoreRedownloadedHeader(headers[i]);
        if !ok {
          return ret.(success := false);
        }
      }
      var released := PopHeadersReadyForAcceptance();
      ret := ret.(headers := released);
      if !(redownloadedHeaders == [] && processAllRemainingHeaders) && fullMessage {
        ret := ret.(requestMore := true);
      }
    }
  }

  lemma PopStep(r: Rules, s: Sync, released: seq<Header>)
    requires Ready(r, s)
    ensures var h := FullHeader(s.buffer[0], s.bufferFirstPrev);
            var n := s.(buffer := s.buffer[1..], bufferFirstPrev := r.hash(h));
            && Popped(r, s) == (Popped(r, n).0, [h] + Popped(r, n).1)
            && released + Popped(r, s).1 == released + [h] + Popped(r, n).1
  {
  }
}
