/** What every run of the headers sync releases, and when a run releases everything. */
module HeadersSyncSafety {
  import opened HeadersSyncs

  // ----- the first download

  /** The state after the first download has accepted `pre`. */
  ghost predicate PresyncInv(r: Rules, s: Sync, pre: seq<Header>) {
    && RulesOk(r) && s.phase == Presync && !s.processAll && s.buffer == [] && Linked(r, pre)
    && s.height == r.startHeight + |pre| && s.last == Tip(r, pre) && s.work == Work(r, pre)
    && s.commitments == Bits(r, pre) && |s.commitments| <= r.maxCommitments
  }

  ghost predicate Contiguous(r: Rules, headers: seq<Header>) {
    forall i | 0 < i < |headers| :: headers[i].prev == r.hash(headers[i - 1])
  }

  lemma PresyncOneKeeps(r: Rules, s: Sync, pre: seq<Header>, h: Header)
    requires PresyncInv(r, s, pre) && h.prev == r.hash(s.last)
    ensures PresyncOne(r, s, h).Good? ==> PresyncInv(r, PresyncOne(r, s, h).sync, pre + [h])
  {
    if PresyncOne(r, s, h).Good? {
      LinkedMore(r, pre, h);
      WorkMore(r, pre, h);
      BitsMore(r, pre, h);
    }
  }

  lemma {:induction false} PresyncAllKeeps(r: Rules, s: Sync, pre: seq<Header>, headers: seq<Header>)
    requires PresyncInv(r, s, pre) && Contiguous(r, headers) && (headers != [] ==> headers[0].prev == r.hash(s.last))
    ensures PresyncAll(r, s, headers).Good? ==> PresyncInv(r, PresyncAll(r, s, headers).sync, pre + headers)
    decreases |headers|
  {
    if headers == [] {
      assert pre + headers == pre;
    } else if PresyncOne(r, s, headers[0]).Good? {
      PresyncOneKeeps(r, s, pre, headers[0]);
      PresyncAllKeeps(r, PresyncOne(r, s, headers[0]).sync, pre + [headers[0]], headers[1..]);
      assert pre + [headers[0]] + headers[1..] == pre + headers;
    }
  }

  // ----- the second download

  /** The second download has accepted `re`, released its front `out`, and checked the commitments to its
      first `checked` headers: the bit tested at each height is the one stored for that height. */
  ghost predicate RedownloadInv(r: Rules, s: Sync, pre: seq<Header>, re: seq<Header>, out: seq<Header>, checked: nat) {
    && RulesOk(r) && s.phase == Redownload
    && Accepted(r, pre, re, checked) && Prefix(out, re)
    && s.bufferHeight == r.startHeight + |re| && s.bufferLastHash == r.hash(Tip(r, re)) && s.bufferWork == Work(r, re)
    && (s.processAll <==> re != [] && Work(r, re) >= r.minimumWork)
    && (!s.processAll ==> checked == |re|)
    && s.buffer == CompressAll(re[|out|..]) && s.bufferFirstPrev == r.hash(Tip(r, out))
    && Bits(r, pre) == Bits(r, re[..checked]) + s.commitments
  }

  /** The buffer still holds the last header, unless its size is zero. */
  ghost predicate Remembers(r: Rules, s: Sync, re: seq<Header>) {
    re != [] && s.buffer == [] ==> r.bufferSize == 0
  }

  ghost predicate Prefix(a: seq<Header>, b: seq<Header>) {
    |a| <= |b| && a == b[..|a|]
  }

  /** The two downloads: the first has enough work, and the second agrees with the commitments to the first
      until it has enough work itself. */
  ghost predicate Accepted(r: Rules, pre: seq<Header>, re: seq<Header>, checked: nat)
    requires r.period > 0
  {
    && Linked(r, pre) && Chained(r, re) && Work(r, pre) >= r.minimumWork && |Bits(r, pre)| <= r.maxCommitments
    && checked <= |re| && BitPrefix(Bits(r, re[..checked]), Bits(r, pre))
    && (checked < |re| ==> Work(r, re[..checked + 1]) >= r.minimumWork)
  }

  ghost predicate BitPrefix(a: seq<bool>, b: seq<bool>) {
    |a| <= |b| && a == b[..|a|]
  }

  lemma StartKeeps(r: Rules, s: Sync, pre: seq<Header>)
    requires PresyncInv(r, s, pre) && s.work >= r.minimumWork
    ensures RedownloadInv(r, StartRedownload(r, s), pre, [], [], 0)
  {
  }

  lemma {:induction false} BitsPrefix(r: Rules, chain: seq<Header>, n: nat)
    requires r.period > 0 && n <= |chain|
    ensures BitPrefix(Bits(r, chain[..n]), Bits(r, chain))
  {
    if n < |chain| {
      var init := chain[..|chain| - 1];
      BitsPrefix(r, init, n);
      assert init[..n] == chain[..n];
    } else {
      assert chain[..n] == chain;
    }
  }

  lemma CheckedMore(r: Rules, re: seq<Header>, checked: nat, h: Header)
    requires checked <= |re|
    ensures (re + [h])[..checked] == re[..checked] && (checked < |re| ==> (re + [h])[..checked + 1] == re[..checked + 1])
    ensures checked == |re| ==> re[..checked] == re && (re + [h])[..checked + 1] == re + [h]
  {
  }

  lemma RedownloadOneKeeps(r: Rules, s: Sync, pre: seq<Header>, re: seq<Header>, out: seq<Header>, checked: nat, h: Header)
    requires RedownloadInv(r, s, pre, re, out, checked) && Remembers(r, s, re)
    requires RedownloadOne(r, s, h).Good?
    ensures var n := RedownloadOne(r, s, h).sync;
            RedownloadInv(r, n, pre, re + [h], out, if n.processAll then checked else checked + 1) && n.buffer != []
  {
    hide Work, Bits, CompressAll, Accepted, Chained;
    var n := RedownloadOne(r, s, h).sync;
    AcceptedFacts(r, pre, re, checked);
    PreviousBits(re, out);
    BufferIsEmpty(re, out);
    ChainedMore(r, re, h);
    WorkMore(r, re, h);
    BufferMore(re, out, h);
    CheckedMore(r, re, checked, h);
    if !n.processAll {
      BitsMore(r, re, h);
    }
    AcceptedMore(r, pre, re, checked, h, n.processAll, n.commitments);
  }

  lemma AcceptedFacts(r: Rules, pre: seq<Header>, re: seq<Header>, checked: nat)
    requires r.period > 0 && Accepted(r, pre, re, checked)
    ensures Chained(r, re) && checked <= |re|
  {
  }

  lemma AcceptedMore(r: Rules, pre: seq<Header>, re: seq<Header>, checked: nat, h: Header, enough: bool, rest: seq<bool>)
    requires r.period > 0 && Accepted(r, pre, re, checked) && Chained(r, re + [h])
    requires enough && checked == |re| ==> Work(r, re + [h]) >= r.minimumWork
    requires !enough ==> checked == |re| && Bits(r, pre) == Bits(r, re + [h]) + rest
    ensures Accepted(r, pre, re + [h], if enough then checked else checked + 1)
  {
    hide Work, Bits, Chained, Linked;
    CheckedMore(r, re, checked, h);
  }

  lemma PreviousBits(re: seq<Header>, out: seq<Header>)
    requires Prefix(out, re)
    ensures var b := CompressAll(re[|out|..]); b != [] ==> b[|b| - 1].bits == re[|re| - 1].bits
  {
  }

  lemma BufferMore(re: seq<Header>, out: seq<Header>, h: Header)
    requires Prefix(out, re)
    ensures Prefix(out, re + [h]) && CompressAll((re + [h])[|out|..]) == CompressAll(re[|out|..]) + [Compress(h)]
  {
    assert (re + [h])[|out|..] == re[|out|..] + [h];
  }

  lemma {:induction false} RedownloadAllKeeps(r: Rules, s: Sync, pre: seq<Header>, re: seq<Header>, out: seq<Header>, checked: nat, headers: seq<Header>)
    returns (checked': nat)
    requires r.period > 0 && RedownloadInv(r, s, pre, re, out, checked) && Remembers(r, s, re)
    requires RedownloadAll(r, s, headers).Good?
    ensures var n := RedownloadAll(r, s, headers).sync;
            RedownloadInv(r, n, pre, re + headers, out, checked') && Remembers(r, n, re + headers)
    decreases |headers|
  {
    hide RedownloadInv, RedownloadOne;
    if headers == [] {
      assert re + headers == re;
      checked' := checked;
    } else {
      RedownloadOneKeeps(r, s, pre, re, out, checked, headers[0]);
      var n := RedownloadOne(r, s, headers[0]).sync;
      checked' := RedownloadAllKeeps(r, n, pre, re + [headers[0]], out, if n.processAll then checked else checked + 1, headers[1..]);
      assert re + [headers[0]] + headers[1..] == re + headers;
    }
  }

  // ----- releasing

  function Max(a: int, b: int): int {
    if a < b then b else a
  }

  /** Each released header is rebuilt exactly. */
  lemma PopOne(r: Rules, s: Sync, pre: seq<Header>, re: seq<Header>, out: seq<Header>, checked: nat)
    requires RedownloadInv(r, s, pre, re, out, checked) && s.buffer != []
    ensures |out| < |re|
    ensures var h := FullHeader(s.buffer[0], s.bufferFirstPrev);
            && h == re[|out|]
            && RedownloadInv(r, s.(buffer := s.buffer[1..], bufferFirstPrev := r.hash(h)), pre, re, out + [h], checked)
  {
    assert ChainsAt(r, re, |out|);
    assert re[..|out|] == out;
    assert out + [re[|out|]] == re[..|out| + 1];
    BufferLess(re, |out|);
  }

  lemma BufferLess(re: seq<Header>, n: nat)
    requires n < |re|
    ensures CompressAll(re[n..])[0] == Compress(re[n]) && CompressAll(re[n..])[1..] == CompressAll(re[n + 1..])
  {
  }

  /** A header is released once enough headers follow it, or once the second download has enough work. */
  lemma {:induction false} PopKeeps(r: Rules, s: Sync, pre: seq<Header>, re: seq<Header>, out: seq<Header>, checked: nat)
    requires RedownloadInv(r, s, pre, re, out, checked)
    ensures var (n, headers) := Popped(r, s);
            && RedownloadInv(r, n, pre, re, out + headers, checked) && n.processAll == s.processAll
            && |out + headers| == if s.processAll then |re| else Max(|out|, |re| - r.bufferSize)
    decreases |s.buffer|
  {
    assert |s.buffer| == |re| - |out|;
    if Ready(r, s) {
      PopOne(r, s, pre, re, out, checked);
      var h := FullHeader(s.buffer[0], s.bufferFirstPrev);
      var s1 := s.(buffer := s.buffer[1..], bufferFirstPrev := r.hash(h));
      PopKeeps(r, s1, pre, re, out + [h], checked);
      var (n, headers) := Popped(r, s1);
      assert out + [h] + headers == out + ([h] + headers);
    } else {
      assert out + [] == out;
    }
  }

  // ----- between messages

  /** In the second download, all but the last headers are released. */
  ghost predicate Buffering(r: Rules, s: Sync, pre: seq<Header>, re: seq<Header>, out: seq<Header>) {
    && RedownloadInv(r, s, pre, re, out, |re|) && !s.processAll
    && |out| == Max(0, |re| - r.bufferSize)
  }

  /** The released headers are a front of a chain that agrees with the commitments; unless that chain has
      enough work, more than the buffer's size of them were buffered when each was released. */
  ghost predicate ReleasedOk(r: Rules, pre: seq<Header>, re: seq<Header>, out: seq<Header>, checked: nat)
    requires r.period > 0
  {
    && Accepted(r, pre, re, checked) && Prefix(out, re)
    && (out != [] ==> |out| <= |re| - r.bufferSize || Work(r, re) >= r.minimumWork)
  }

  ghost predicate Explained(r: Rules, s: Sync, out: seq<Header>)
    requires r.period > 0
  {
    match s.phase
    case Presync => out == [] && exists pre :: PresyncInv(r, s, pre)
    case Redownload => exists pre, re :: Buffering(r, s, pre, re, out)
    case Final =>
      && s.commitments == [] && s.buffer == []
      && (out == [] || exists pre, re, checked :: ReleasedOk(r, pre, re, out, checked))
  }

  lemma InitialExplained(r: Rules)
    requires RulesOk(r)
    ensures Explained(r, Initial(r), [])
  {
    assert PresyncInv(r, Initial(r), []);
  }

  lemma PresyncExplained(r: Rules, s: Sync, headers: seq<Header>, fullMessage: bool)
    requires RulesOk(r) && s.phase == Presync && Explained(r, s, []) && Contiguous(r, headers) && headers != []
    ensures var (n, result) := Process(r, s, headers, fullMessage); result.headers == [] && Explained(r, n, [])
  {
    var pre :| PresyncInv(r, s, pre);
    PresyncAllKeepsIfConnected(r, s, pre, headers);
    var o := PresyncMessage(r, s, headers);
    if o.Good? {
      var n := PresyncAll(r, s, headers).sync;
      if n.work >= r.minimumWork {
        StartKeeps(r, n, pre + headers);
        assert Buffering(r, o.sync, pre + headers, [], []);
      }
    }
  }

  lemma PresyncAllKeepsIfConnected(r: Rules, s: Sync, pre: seq<Header>, headers: seq<Header>)
    requires PresyncInv(r, s, pre) && Contiguous(r, headers) && headers != []
    ensures PresyncMessage(r, s, headers).Good? ==>
              PresyncAll(r, s, headers).Good? && PresyncInv(r, PresyncAll(r, s, headers).sync, pre + headers)
  {
    if headers[0].prev == r.hash(s.last) {
      PresyncAllKeeps(r, s, pre, headers);
    }
  }

  lemma RedownloadExplained(r: Rules, s: Sync, out: seq<Header>, headers: seq<Header>, fullMessage: bool)
    requires RulesOk(r) && s.phase == Redownload && Explained(r, s, out)
    ensures var (n, result) := RedownloadMessage(r, s, headers, fullMessage); Explained(r, n, out + result.headers)
  {
    hide Popped, RedownloadAll, Bits, Work;
    var pre, re :| Buffering(r, s, pre, re, out);
    var o := RedownloadAll(r, s, headers);
    if o.Bad? {
      assert ReleasedOk(r, pre, re, out, |re|);
      assert out + [] == out;
    } else {
      var checked := RedownloadAllKeeps(r, s, pre, re, out, |re|, headers);
      PopKeeps(r, o.sync, pre, re + headers, out, checked);
      var (p, released) := Popped(r, o.sync);
      AfterPop(r, p, pre, re + headers, out + released, checked);
      assert !p.processAll ==> Buffering(r, p, pre, re + headers, out + released);
    }
  }

  lemma AfterPop(r: Rules, p: Sync, pre: seq<Header>, re: seq<Header>, out: seq<Header>, checked: nat)
    requires RedownloadInv(r, p, pre, re, out, checked)
    requires if p.processAll then |out| == |re| else |out| == Max(0, |re| - r.bufferSize)
    ensures ReleasedOk(r, pre, re, out, checked) && (p.processAll ==> p.buffer == [])
  {
  }

  // ----- whole runs

  datatype Message = Message(headers: seq<Header>, isFull: bool)

  /** The state after a run, and all headers it released. */
  function Run(r: Rules, s: Sync, messages: seq<Message>): (Sync, seq<Header>)
    requires r.period > 0
    decreases |messages|
  {
    if messages == [] then (s, [])
    else
      var (n, result) := Process(r, s, messages[0].headers, messages[0].isFull);
      var (end, released) := Run(r, n, messages[1..]);
      (end, result.headers + released)
  }

  lemma {:induction false} RunExplained(r: Rules, s: Sync, out: seq<Header>, messages: seq<Message>)
    requires RulesOk(r) && Explained(r, s, out)
    requires forall m | m in messages :: Contiguous(r, m.headers)
    ensures var (end, released) := Run(r, s, messages); Explained(r, end, out + released)
    decreases |messages|
  {
    hide Process, Explained;
    if messages == [] {
      assert out + [] == out;
    } else {
      ProcessExplained(r, s, out, messages[0]);
      var (n, result) := Process(r, s, messages[0].headers, messages[0].isFull);
      RunExplained(r, n, out + result.headers, messages[1..]);
      var (end, released) := Run(r, n, messages[1..]);
      assert out + result.headers + released == out + (result.headers + released);
    }
  }

  lemma ProcessExplained(r: Rules, s: Sync, out: seq<Header>, m: Message)
    requires RulesOk(r) && Explained(r, s, out) && Contiguous(r, m.headers)
    ensures var (n, result) := Process(r, s, m.headers, m.isFull); Explained(r, n, out + result.headers)
  {
    assert out + [] == out;
    if m.headers != [] {
      match s.phase
      case Presync => PresyncExplained(r, s, m.headers, m.isFull);
      case Redownload => RedownloadExplained(r, s, out, m.headers, m.isFull);
      case Final =>
    }
  }

  /** Every run, whatever the peer sends, releases a front of a chain whose commitment bits are those stored
      in the first download, and keeps its memory bounded. */
  lemma EveryRunIsSafe(r: Rules, messages: seq<Message>)
    requires RulesOk(r) && forall m | m in messages :: Contiguous(r, m.headers)
    ensures var (end, out) := Run(r, Initial(r), messages);
            && |end.commitments| <= r.maxCommitments && |end.buffer| <= r.bufferSize
            && (out != [] ==> exists pre, re, checked :: ReleasedOk(r, pre, re, out, checked))
  {
    hide Run;
    InitialExplained(r);
    RunExplained(r, Initial(r), [], messages);
    var (end, out) := Run(r, Initial(r), messages);
    assert [] + out == out;
    ExplainedIsSafe(r, end, out);
  }

  lemma ExplainedIsSafe(r: Rules, s: Sync, out: seq<Header>)
    requires RulesOk(r) && Explained(r, s, out)
    ensures |s.commitments| <= r.maxCommitments && |s.buffer| <= r.bufferSize
    ensures out != [] ==> exists pre, re, checked :: ReleasedOk(r, pre, re, out, checked)
  {
    match s.phase
    case Presync => var pre :| PresyncInv(r, s, pre);
    case Redownload =>
      var pre, re :| Buffering(r, s, pre, re, out);
      assert ReleasedOk(r, pre, re, out, |re|);
      assert |s.buffer| == |re| - |out| && |s.commitments| <= |Bits(r, pre)|;
    case Final =>
  }

  // ----- what agreeing with the commitments means

  /** How many of the first heights have commitments. */
  function Count(r: Rules, n: nat): nat
    requires r.period > 0
  {
    if n == 0 then 0 else Count(r, n - 1) + if Commits(r, r.startHeight + n) then 1 else 0
  }

  lemma {:induction false} BitsCount(r: Rules, chain: seq<Header>)
    requires r.period > 0
    ensures |Bits(r, chain)| == Count(r, |chain|)
  {
    if chain != [] {
      BitsCount(r, chain[..|chain| - 1]);
    }
  }

  lemma {:induction false} CountGrows(r: Rules, m: nat, n: nat)
    requires r.period > 0 && m <= n
    ensures Count(r, m) <= Count(r, n)
  {
    if m < n {
      CountGrows(r, m, n - 1);
    }
  }

  lemma BitAt(r: Rules, chain: seq<Header>, i: nat)
    requires r.period > 0 && i < |chain| && Commits(r, r.startHeight + i + 1)
    ensures Count(r, i) < |Bits(r, chain)| && Bits(r, chain)[Count(r, i)] == r.bit(r.hash(chain[i]))
  {
    BitsCount(r, chain[..i]);
    BitsMore(r, chain[..i], chain[i]);
    assert chain[..i] + [chain[i]] == chain[..i + 1];
    BitsPrefix(r, chain, i + 1);
  }

  /** At every height below `checked` that has a commitment, the second download's header has the bit that
      the first download's header at the same height has. */
  lemma SameBitAtSameHeight(r: Rules, pre: seq<Header>, re: seq<Header>, checked: nat, i: nat)
    requires r.period > 0 && checked <= |re| && BitPrefix(Bits(r, re[..checked]), Bits(r, pre))
    requires i < checked && Commits(r, r.startHeight + i + 1)
    ensures i < |pre| && r.bit(r.hash(re[i])) == r.bit(r.hash(pre[i]))
  {
    BitAt(r, re[..checked], i);
    BitsCount(r, pre);
    if |pre| <= i {
      CountGrows(r, |pre|, i);
    } else {
      BitAt(r, pre, i);
    }
  }

  // ----- an honest peer

  /** The chain is served again: until it has enough work it is the one seen in the first download. */
  ghost predicate ServedAgain(r: Rules, pre: seq<Header>, chain: seq<Header>) {
    && Linked(r, chain)
    && forall n | 0 <= n <= |chain| && Work(r, chain[..n]) < r.minimumWork :: Prefix(chain[..n], pre)
  }

  /** A header may follow an empty buffer: the buffer is never empty after the first one, or the header's
      difficulty is permitted after the starting block's. */
  ghost predicate Restartable(r: Rules, re: seq<Header>, h: Header) {
    re == [] || r.bufferSize > 0 || r.permitted(r.startHeight + |re| + 1, r.start.bits, h.bits)
  }

  lemma LinkAt(r: Rules, chain: seq<Header>, i: nat)
    requires Linked(r, chain) && i < |chain|
    ensures LinksAt(r, chain, i)
  {
  }

  lemma ServedFacts(r: Rules, pre: seq<Header>, re: seq<Header>, chain: seq<Header>)
    requires ServedAgain(r, pre, chain) && |re| < |chain| && re == chain[..|re|]
    ensures var h := chain[|re|];
            && h.prev == r.hash(Tip(r, re)) && r.permitted(r.startHeight + |re| + 1, Tip(r, re).bits, h.bits)
            && (Work(r, re) + r.proof(h.bits) < r.minimumWork ==> Prefix(re + [h], pre))
  {
    hide Work, Tip, Linked;
    LinkAt(r, chain, |re|);
    WorkMore(r, re, chain[|re|]);
    assert chain[..|re| + 1] == re + [chain[|re|]];
  }

  lemma ServedOne(r: Rules, s: Sync, pre: seq<Header>, re: seq<Header>, out: seq<Header>, checked: nat, chain: seq<Header>)
    requires RedownloadInv(r, s, pre, re, out, checked) && Remembers(r, s, re)
    requires ServedAgain(r, pre, chain) && |re| < |chain| && re == chain[..|re|]
    requires s.buffer == [] ==> Restartable(r, re, chain[|re|])
    ensures RedownloadOne(r, s, chain[|re|]).Good?
  {
    hide Bits, Work, Accepted, ServedAgain, CompressAll;
    var h := chain[|re|];
    ServedFacts(r, pre, re, chain);
    PreviousBits(re, out);
    BufferIsEmpty(re, out);
    if !s.processAll && Work(r, re) + r.proof(h.bits) < r.minimumWork && Commits(r, r.startHeight + |re| + 1) {
      assert re[..checked] == re;
      NextBit(r, pre, re, h, s.commitments);
    }
  }

  lemma BufferIsEmpty(re: seq<Header>, out: seq<Header>)
    requires Prefix(out, re)
    ensures re == [] ==> CompressAll(re[|out|..]) == []
  {
  }

  lemma NextBit(r: Rules, pre: seq<Header>, re: seq<Header>, h: Header, commitments: seq<bool>)
    requires r.period > 0 && Prefix(re + [h], pre) && Bits(r, pre) == Bits(r, re) + commitments
    requires Commits(r, r.startHeight + |re| + 1)
    ensures commitments != [] && commitments[0] == r.bit(r.hash(h))
  {
    hide Bits;
    BitsMore(r, re, h);
    BitsPrefix(r, pre, |re| + 1);
    assert pre[..|re| + 1] == re + [h];
    NextOf(Bits(r, re), commitments, r.bit(r.hash(h)), Bits(r, pre));
  }

  lemma NextOf(a: seq<bool>, c: seq<bool>, x: bool, all: seq<bool>)
    requires all == a + c && BitPrefix(a + [x], all)
    ensures c != [] && c[0] == x
  {
    assert all[|a|] == (a + [x])[|a|];
  }

  lemma {:induction false} ServedAll(r: Rules, s: Sync, pre: seq<Header>, re: seq<Header>, out: seq<Header>, checked: nat, headers: seq<Header>, chain: seq<Header>)
    requires r.period > 0 && RedownloadInv(r, s, pre, re, out, checked) && Remembers(r, s, re)
    requires ServedAgain(r, pre, chain) && Prefix(re + headers, chain)
    requires headers != [] && s.buffer == [] ==> Restartable(r, re, headers[0])
    ensures RedownloadAll(r, s, headers).Good?
    decreases |headers|
  {
    hide RedownloadInv, RedownloadOne, ServedAgain;
    if headers != [] {
      assert re == chain[..|re|] && headers[0] == chain[|re|];
      ServedOne(r, s, pre, re, out, checked, chain);
      RedownloadOneKeeps(r, s, pre, re, out, checked, headers[0]);
      var n := RedownloadOne(r, s, headers[0]).sync;
      assert re + [headers[0]] + headers[1..] == re + headers;
      ServedAll(r, n, pre, re + [headers[0]], out, if n.processAll then checked else checked + 1, headers[1..], chain);
    }
  }

  function Concat(messages: seq<Message>): seq<Header> {
    if messages == [] then [] else messages[0].headers + Concat(messages[1..])
  }

  /** All messages but the last are full, and only the last one brings enough work. */
  ghost predicate Serving(r: Rules, re: seq<Header>, messages: seq<Message>)
    decreases |messages|
  {
    && messages != [] && messages[0].headers != []
    && if |messages| == 1 then Work(r, re + messages[0].headers) >= r.minimumWork
       else
         && messages[0].isFull && Work(r, re + messages[0].headers) < r.minimumWork
         && Serving(r, re + messages[0].headers, messages[1..])
  }

  /** The first header of every message may follow an empty buffer. */
  ghost predicate Restarts(r: Rules, re: seq<Header>, messages: seq<Message>)
    decreases |messages|
  {
    messages != [] ==>
      && (messages[0].headers != [] ==> Restartable(r, re, messages[0].headers[0]))
      && Restarts(r, re + messages[0].headers, messages[1..])
  }

  /** One message of a chain that is served again. */
  lemma ServedMessage(r: Rules, s: Sync, pre: seq<Header>, re: seq<Header>, out: seq<Header>, m: Message, chain: seq<Header>)
    requires Buffering(r, s, pre, re, out) && m.headers != []
    requires ServedAgain(r, pre, chain) && Prefix(re + m.headers, chain) && Restartable(r, re, m.headers[0])
    ensures r.period > 0
    ensures var (n, result) := Process(r, s, m.headers, m.isFull);
            && result.success
            && (Work(r, re + m.headers) >= r.minimumWork ==> n.phase == Final && out + result.headers == re + m.headers)
            && (Work(r, re + m.headers) < r.minimumWork && m.isFull ==>
                  result.requestMore && Buffering(r, n, pre, re + m.headers, out + result.headers))
  {
    hide RedownloadInv, RedownloadAll, Popped, ServedAgain;
    BufferingFacts(r, s, pre, re, out);
    ServedAll(r, s, pre, re, out, |re|, m.headers, chain);
    var checked := RedownloadAllKeeps(r, s, pre, re, out, |re|, m.headers);
    var q := RedownloadAll(r, s, m.headers).sync;
    PopKeeps(r, q, pre, re + m.headers, out, checked);
    PoppedFacts(r, Popped(r, q).0, pre, re + m.headers, out + Popped(r, q).1, checked);
  }

  lemma BufferingFacts(r: Rules, s: Sync, pre: seq<Header>, re: seq<Header>, out: seq<Header>)
    requires Buffering(r, s, pre, re, out)
    ensures r.period > 0 && s.phase == Redownload && Remembers(r, s, re)
  {
  }

  lemma PoppedFacts(r: Rules, p: Sync, pre: seq<Header>, re: seq<Header>, out: seq<Header>, checked: nat)
    requires RedownloadInv(r, p, pre, re, out, checked) && re != []
    requires |out| == if p.processAll then |re| else Max(0, |re| - r.bufferSize)
    ensures p.phase == Redownload && (p.processAll <==> Work(r, re) >= r.minimumWork)
    ensures p.processAll ==> p.buffer == [] && out == re
    ensures !p.processAll ==> checked == |re|
  {
  }

  /** A message that starts with a header which may not follow the empty buffer ends the sync. */
  lemma RefusedMessage(r: Rules, s: Sync, pre: seq<Header>, re: seq<Header>, out: seq<Header>, m: Message)
    requires Buffering(r, s, pre, re, out) && m.headers != [] && !Restartable(r, re, m.headers[0])
    ensures r.period > 0 && out == re
    ensures var (n, result) := Process(r, s, m.headers, m.isFull); n.phase == Final && result.headers == []
  {
    hide Linked, Chained, Bits, Work;
    assert re[|out|..] == [];
  }

  lemma {:induction false} NothingAfterEnd(r: Rules, s: Sync, messages: seq<Message>)
    requires r.period > 0 && s.phase == Final
    ensures Run(r, s, messages) == (s, [])
    decreases |messages|
  {
    if messages != [] {
      NothingAfterEnd(r, s, messages[1..]);
      assert Process(r, s, messages[0].headers, messages[0].isFull).1.headers + [] == [];
    }
  }

  /** A peer that serves its chain again gets all of it released, exactly if every message may follow an empty
      buffer, which is always so if the buffer has a size. */
  lemma {:induction false} HonestPeerSucceeds(r: Rules, s: Sync, pre: seq<Header>, re: seq<Header>, out: seq<Header>, messages: seq<Message>)
    requires r.period > 0 && Buffering(r, s, pre, re, out) && Serving(r, re, messages)
    requires ServedAgain(r, pre, re + Concat(messages))
    ensures Run(r, s, messages).0.phase == Final
    ensures out + Run(r, s, messages).1 == re + Concat(messages) <==> Restarts(r, re, messages)
    decreases |messages|
  {
    hide Buffering, Process, ServedAgain, Restartable;
    var m := messages[0];
    var chain := re + Concat(messages);
    assert chain == re + m.headers + Concat(messages[1..]);
    var (n, result) := Process(r, s, m.headers, m.isFull);
    var (end, released) := Run(r, n, messages[1..]);
    assert out + result.headers + released == out + (result.headers + released);
    if !Restartable(r, re, m.headers[0]) {
      RefusedMessage(r, s, pre, re, out, m);
      NothingAfterEnd(r, n, messages[1..]);
    } else {
      ServedMessage(r, s, pre, re, out, m, chain);
      if |messages| == 1 {
        assert messages[1..] == [] && Concat(messages) == m.headers + [];
        NothingAfterEnd(r, n, []);
      } else {
        HonestPeerSucceeds(r, n, pre, re + m.headers, out + result.headers, messages[1..]);
      }
    }
  }

  lemma {:induction false} AlwaysRestarts(r: Rules, re: seq<Header>, messages: seq<Message>)
    requires r.bufferSize > 0
    ensures Restarts(r, re, messages)
    decreases |messages|
  {
    if messages != [] {
      AlwaysRestarts(r, re + messages[0].headers, messages[1..]);
    }
  }

  /** The first download accepts every linked chain that is not too long. */
  lemma {:induction false} PresyncAccepts(r: Rules, s: Sync, pre: seq<Header>, headers: seq<Header>, chain: seq<Header>)
    requires PresyncInv(r, s, pre) && Linked(r, chain) && Prefix(pre + headers, chain) && |Bits(r, chain)| <= r.maxCommitments
    ensures headers != [] ==> headers[0].prev == r.hash(s.last)
    ensures PresyncAll(r, s, headers).Good? && PresyncInv(r, PresyncAll(r, s, headers).sync, pre + headers)
    decreases |headers|
  {
    hide Bits;
    if headers == [] {
      assert pre + headers == pre;
    } else {
      var more := pre + [headers[0]];
      assert headers[0] == chain[|pre|] && chain[..|pre|] == pre && LinksAt(r, chain, |pre|);
      BitsMore(r, pre, headers[0]);
      BitsPrefix(r, chain, |pre| + 1);
      assert chain[..|pre| + 1] == more;
      PresyncOneKeeps(r, s, pre, headers[0]);
      assert more + headers[1..] == pre + headers;
      PresyncAccepts(r, PresyncOne(r, s, headers[0]).sync, more, headers[1..], chain);
    }
  }

  lemma {:induction false} PresyncSucceeds(r: Rules, s: Sync, pre: seq<Header>, messages: seq<Message>)
    requires PresyncInv(r, s, pre) && Serving(r, pre, messages)
    requires Linked(r, pre + Concat(messages)) && |Bits(r, pre + Concat(messages))| <= r.maxCommitments
    ensures r.period > 0
    ensures var (end, released) := Run(r, s, messages);
            released == [] && Buffering(r, end, pre + Concat(messages), [], [])
    decreases |messages|
  {
    hide Bits, PresyncAll, Linked;
    var m := messages[0];
    var chain := pre + Concat(messages);
    assert chain == pre + m.headers + Concat(messages[1..]);
    PresyncAccepts(r, s, pre, m.headers, chain);
    var n := PresyncAll(r, s, m.headers).sync;
    if |messages| == 1 {
      StartKeeps(r, n, pre + m.headers);
      assert messages[1..] == [] && Concat(messages) == m.headers + [];
      assert chain == pre + m.headers;
      assert Run(r, StartRedownload(r, n), []) == (StartRedownload(r, n), []);
      assert Process(r, s, m.headers, m.isFull).0 == StartRedownload(r, n);
    } else {
      PresyncSucceeds(r, n, pre + m.headers, messages[1..]);
    }
  }

  lemma {:induction false} RunConcat(r: Rules, s: Sync, a: seq<Message>, b: seq<Message>)
    requires r.period > 0
    ensures var (mid, first) := Run(r, s, a); var (end, second) := Run(r, mid, b); Run(r, s, a + b) == (end, first + second)
    decreases |a|
  {
    hide Process;
    if a == [] {
      assert a + b == b;
      assert [] + Run(r, s, b).1 == Run(r, s, b).1;
    } else {
      var (n, result) := Process(r, s, a[0].headers, a[0].isFull);
      RunConcat(r, n, a[1..], b);
      assert (a + b)[1..] == a[1..] + b;
      var (mid, first) := Run(r, n, a[1..]);
      var (end, second) := Run(r, mid, b);
      assert result.headers + (first + second) == result.headers + first + second;
    }
  }

  /** From start to end: a peer that serves a chain with enough work, not too long for the commitments, and
      then serves it again, gets everything released that it served the second time. It always does if the
      buffer has a size, and else exactly if every message may follow an empty buffer. */
  lemma {:induction false} WholeSyncSucceeds(r: Rules, first: seq<Message>, second: seq<Message>)
    requires RulesOk(r) && Serving(r, [], first) && Serving(r, [], second)
    requires Linked(r, Concat(first)) && |Bits(r, Concat(first))| <= r.maxCommitments
    requires ServedAgain(r, Concat(first), Concat(second))
    ensures Run(r, Initial(r), first + second).1 == Concat(second) <==> Restarts(r, [], second)
    ensures r.bufferSize > 0 ==> Restarts(r, [], second)
  {
    hide Run, Bits, Linked, ServedAgain, Buffering, Restarts;
    if r.bufferSize > 0 {
      AlwaysRestarts(r, [], second);
    }
    assert PresyncInv(r, Initial(r), []) by {
      assert Bits(r, []) == [] by {
        BitsCount(r, []);
      }
      NothingLinked(r);
    }
    assert [] + Concat(first) == Concat(first) && [] + Concat(second) == Concat(second);
    PresyncSucceeds(r, Initial(r), [], first);
    var (mid, released) := Run(r, Initial(r), first);
    HonestPeerSucceeds(r, mid, Concat(first), [], [], second);
    RunConcat(r, Initial(r), first, second);
    assert [] + Run(r, mid, second).1 == Run(r, mid, second).1;
  }

  lemma NothingLinked(r: Rules)
    ensures Linked(r, [])
  {
  }

  // ----- what a message is answered with

  /** The sync is over, and what was kept is dropped. */
  ghost predicate Forgotten(s: Sync) {
    && s.phase == Final && s.commitments == [] && s.buffer == [] && s.last == NULL_HEADER && s.height == 0
    && s.bufferLastHash == 0 && s.bufferFirstPrev == 0 && !s.processAll
  }

  /** A message in the first download succeeds exactly if it extends the chain as permitted and leaves room for its
      commitments. More is asked for exactly if it succeeded, and is full or brings enough work. */
  lemma PresyncAnswer(r: Rules, s: Sync, pre: seq<Header>, headers: seq<Header>, fullMessage: bool)
    requires PresyncInv(r, s, pre) && headers != [] && Contiguous(r, headers)
    ensures r.period > 0
    ensures var (n, result) := Process(r, s, headers, fullMessage);
            var chain := pre + headers;
            && (result.success <==> Linked(r, chain) && |Bits(r, chain)| <= r.maxCommitments)
            && (result.requestMore <==> result.success && (fullMessage || Work(r, chain) >= r.minimumWork))
            && result.headers == [] && (!result.requestMore ==> Forgotten(n))
            && n.phase == if !result.requestMore then Final else if Work(r, chain) >= r.minimumWork then Redownload else Presync
  {
    hide Linked, Bits, Work, PresyncAll;
    var chain := pre + headers;
    PresyncAllKeepsIfConnected(r, s, pre, headers);
    if Linked(r, chain) && |Bits(r, chain)| <= r.maxCommitments {
      PresyncAccepts(r, s, pre, headers, chain);
    }
    if headers[0].prev == r.hash(s.last) && PresyncAll(r, s, headers).Good? {
      PresyncFacts(r, PresyncAll(r, s, headers).sync, chain);
    }
  }

  lemma PresyncFacts(r: Rules, s: Sync, pre: seq<Header>)
    requires PresyncInv(r, s, pre)
    ensures r.period > 0 && s.phase == Presync && Linked(r, pre) && |Bits(r, pre)| <= r.maxCommitments && s.work == Work(r, pre)
  {
  }

  /** The headers of a message name their predecessors and change the difficulty as permitted; the first one is
      compared with the starting block if the buffer is empty. */
  ghost predicate Continues(r: Rules, re: seq<Header>, headers: seq<Header>) {
    forall i | 0 <= i < |headers| :: ContinuesAt(r, re, headers, i)
  }

  ghost predicate ContinuesAt(r: Rules, re: seq<Header>, headers: seq<Header>, i: int)
    requires 0 <= i < |headers|
  {
    var before := Tip(r, re + headers[..i]);
    && headers[i].prev == r.hash(before)
    && r.permitted(r.startHeight + |re| + i + 1, if i == 0 && re != [] && r.bufferSize == 0 then r.start.bits else before.bits, headers[i].bits)
  }

  /** With a buffer size above zero, that is to say that the whole chain is linked. */
  lemma ContinuesIsLinked(r: Rules, re: seq<Header>, headers: seq<Header>)
    requires r.bufferSize > 0 && Linked(r, re)
    ensures Continues(r, re, headers) <==> Linked(r, re + headers)
  {
    var all := re + headers;
    forall i | 0 <= i < |headers| ensures ContinuesAt(r, re, headers, i) <==> LinksAt(r, all, |re| + i) {
      assert all[..|re| + i] == re + headers[..i];
    }
    forall i | 0 <= i < |re| ensures LinksAt(r, all, i) {
      assert LinksAt(r, re, i) && all[..i] == re[..i];
    }
    if Continues(r, re, headers) {
      forall i | 0 <= i < |all| ensures LinksAt(r, all, i) {
        assert i >= |re| ==> ContinuesAt(r, re, headers, i - |re|);
      }
    }
    if Linked(r, all) {
      forall i | 0 <= i < |headers| ensures ContinuesAt(r, re, headers, i) {
        assert LinksAt(r, all, |re| + i);
      }
    }
  }

  /** The second download agrees with the commitments until it has enough work. */
  ghost predicate Agrees(r: Rules, pre: seq<Header>, re: seq<Header>)
    requires r.period > 0
  {
    exists checked: nat :: AgreesUpTo(r, pre, re, checked)
  }

  ghost predicate AgreesUpTo(r: Rules, pre: seq<Header>, re: seq<Header>, checked: nat)
    requires r.period > 0
  {
    && checked <= |re| && BitPrefix(Bits(r, re[..checked]), Bits(r, pre))
    && (checked < |re| ==> Work(r, re[..checked + 1]) >= r.minimumWork)
  }

  lemma {:induction false} WorkGrows(r: Rules, chain: seq<Header>, n: nat)
    requires n <= |chain|
    ensures Work(r, chain[..n]) <= Work(r, chain)
  {
    if n < |chain| {
      var init := chain[..|chain| - 1];
      WorkGrows(r, init, n);
      assert init[..n] == chain[..n];
    } else {
      assert chain[..n] == chain;
    }
  }

  /** Where the work is not enough yet, the next header agrees with its commitment. */
  lemma AgreesNext(r: Rules, pre: seq<Header>, all: seq<Header>, re: seq<Header>, h: Header, commitments: seq<bool>)
    requires r.period > 0 && Agrees(r, pre, all) && Prefix(re + [h], all) && Work(r, re + [h]) < r.minimumWork
    requires Bits(r, pre) == Bits(r, re) + commitments && Commits(r, r.startHeight + |re| + 1)
    ensures commitments != [] && commitments[0] == r.bit(r.hash(h))
  {
    hide Bits, Work;
    var checked: nat :| AgreesUpTo(r, pre, all, checked);
    var n := |re| + 1;
    assert all[..n] == re + [h];
    var m := if checked <= |re| then checked + 1 else n;
    WorkGrows(r, re + [h], m);
    assert (re + [h])[..m] == all[..m];
    assert checked >= n;
    BitsMore(r, re, h);
    BitsPrefix(r, all[..checked], n);
    assert all[..checked][..n] == re + [h];
    NextOf(Bits(r, re), commitments, r.bit(r.hash(h)), Bits(r, pre));
  }

  lemma AgreesOne(r: Rules, s: Sync, pre: seq<Header>, re: seq<Header>, out: seq<Header>, checked: nat, h: Header, all: seq<Header>)
    requires RedownloadInv(r, s, pre, re, out, checked) && Agrees(r, pre, all) && Prefix(re + [h], all)
    requires h.prev == r.hash(Tip(r, re))
    requires r.permitted(r.startHeight + |re| + 1, if s.buffer == [] then r.start.bits else Tip(r, re).bits, h.bits)
    ensures RedownloadOne(r, s, h).Good?
  {
    hide Bits, Work, Accepted, Agrees, CompressAll, Prefix;
    AcceptedFacts(r, pre, re, checked);
    PreviousBits(re, out);
    BufferIsEmpty(re, out);
    WorkMore(r, re, h);
    if !s.processAll && Work(r, re) + r.proof(h.bits) < r.minimumWork && Commits(r, r.startHeight + |re| + 1) {
      assert re[..checked] == re;
      AgreesNext(r, pre, all, re, h, s.commitments);
    }
  }

  lemma {:induction false} AgreesAll(r: Rules, s: Sync, pre: seq<Header>, re: seq<Header>, out: seq<Header>, checked: nat, headers: seq<Header>)
    requires r.period > 0 && RedownloadInv(r, s, pre, re, out, checked) && Remembers(r, s, re)
    requires Agrees(r, pre, re + headers)
    requires forall i | 0 <= i < |headers| :: PermittedAt(r, s, re, headers, i)
    ensures RedownloadAll(r, s, headers).Good?
    decreases |headers|
  {
    hide RedownloadInv, RedownloadOne, Agrees;
    if headers != [] {
      var h := headers[0];
      assert PermittedAt(r, s, re, headers, 0) && re + headers[..0] == re;
      assert Prefix(re + [h], re + headers);
      AgreesOne(r, s, pre, re, out, checked, h, re + headers);
      RedownloadOneKeeps(r, s, pre, re, out, checked, h);
      var n := RedownloadOne(r, s, h).sync;
      var rest := headers[1..];
      assert re + [h] + rest == re + headers;
      forall i | 0 <= i < |rest| ensures PermittedAt(r, n, re + [h], rest, i) {
        assert PermittedAt(r, s, re, headers, i + 1);
        assert re + [h] + rest[..i] == re + headers[..i + 1];
      }
      AgreesAll(r, n, pre, re + [h], out, if n.processAll then checked else checked + 1, rest);
    }
  }

  ghost predicate PermittedAt(r: Rules, s: Sync, re: seq<Header>, headers: seq<Header>, i: int)
    requires 0 <= i < |headers|
  {
    var before := Tip(r, re + headers[..i]);
    && headers[i].prev == r.hash(before)
    && r.permitted(r.startHeight + |re| + i + 1, if i == 0 && s.buffer == [] then r.start.bits else before.bits, headers[i].bits)
  }

  lemma {:induction false} GoodPermitted(r: Rules, s: Sync, pre: seq<Header>, re: seq<Header>, out: seq<Header>, checked: nat, headers: seq<Header>, i: nat)
    requires r.period > 0 && RedownloadInv(r, s, pre, re, out, checked) && Remembers(r, s, re)
    requires RedownloadAll(r, s, headers).Good? && i < |headers|
    ensures PermittedAt(r, s, re, headers, i)
    decreases |headers|
  {
    hide RedownloadInv, RedownloadOne;
    var h := headers[0];
    if i == 0 {
      assert re + headers[..0] == re;
      GoodOne(r, s, pre, re, out, checked, h);
    } else {
      RedownloadOneKeeps(r, s, pre, re, out, checked, h);
      var n := RedownloadOne(r, s, h).sync;
      GoodPermitted(r, n, pre, re + [h], out, if n.processAll then checked else checked + 1, headers[1..], i - 1);
      assert re + [h] + headers[1..][..i - 1] == re + headers[..i];
    }
  }

  lemma GoodOne(r: Rules, s: Sync, pre: seq<Header>, re: seq<Header>, out: seq<Header>, checked: nat, h: Header)
    requires RedownloadInv(r, s, pre, re, out, checked) && RedownloadOne(r, s, h).Good?
    ensures h.prev == r.hash(Tip(r, re))
    ensures r.permitted(r.startHeight + |re| + 1, if s.buffer == [] then r.start.bits else Tip(r, re).bits, h.bits)
  {
    hide Bits, Work, Accepted, CompressAll;
    PreviousBits(re, out);
    BufferIsEmpty(re, out);
  }

  /** The buffer is empty before a message exactly if nothing was downloaded, or its size is zero. */
  lemma EmptyBefore(r: Rules, s: Sync, pre: seq<Header>, re: seq<Header>, out: seq<Header>)
    requires Buffering(r, s, pre, re, out)
    ensures s.buffer == [] <==> re == [] || r.bufferSize == 0
  {
    hide Bits, Work, Accepted;
    assert |s.buffer| == |re| - |out|;
  }

  lemma SamePermitted(r: Rules, s: Sync, re: seq<Header>, headers: seq<Header>)
    requires s.buffer == [] <==> re == [] || r.bufferSize == 0
    ensures Continues(r, re, headers) <==> forall i | 0 <= i < |headers| :: PermittedAt(r, s, re, headers, i)
  {
    forall i | 0 <= i < |headers| ensures ContinuesAt(r, re, headers, i) <==> PermittedAt(r, s, re, headers, i) {
      assert re == [] ==> re + headers[..0] == [];
    }
  }

  /** A message in the second download succeeds exactly if it continues the chain and agrees with the commitments until
      the work is enough. More is asked for exactly if it succeeded, is full and the work is not enough yet. On
      success, all headers are released if the work is enough, and else all but the last ones. */
  lemma RedownloadAnswer(r: Rules, s: Sync, pre: seq<Header>, re: seq<Header>, out: seq<Header>, headers: seq<Header>, fullMessage: bool)
    requires Buffering(r, s, pre, re, out) && headers != []
    ensures r.period > 0
    ensures var (n, result) := Process(r, s, headers, fullMessage);
            var chain := re + headers;
            && (result.success <==> Continues(r, re, headers) && Agrees(r, pre, chain))
            && (result.requestMore <==> result.success && fullMessage && Work(r, chain) < r.minimumWork)
            && (result.success ==> Prefix(out + result.headers, chain) && |out + result.headers| ==
                                     if Work(r, chain) >= r.minimumWork then |chain| else Max(0, |chain| - r.bufferSize))
            && (!result.success ==> result.headers == [])
            && (if result.requestMore then n.phase == Redownload else Forgotten(n))
  {
    hide RedownloadInv, RedownloadAll, Popped, Continues, Agrees, Work;
    BufferingFacts(r, s, pre, re, out);
    MessageGood(r, s, pre, re, out, headers);
    if RedownloadAll(r, s, headers).Good? {
      var checked := RedownloadAllKeeps(r, s, pre, re, out, |re|, headers);
      var q := RedownloadAll(r, s, headers).sync;
      PopKeeps(r, q, pre, re + headers, out, checked);
      PoppedFacts(r, Popped(r, q).0, pre, re + headers, out + Popped(r, q).1, checked);
      ReleasedFront(r, Popped(r, q).0, pre, re + headers, out + Popped(r, q).1, checked);
    }
  }

  lemma ReleasedFront(r: Rules, p: Sync, pre: seq<Header>, re: seq<Header>, out: seq<Header>, checked: nat)
    requires RedownloadInv(r, p, pre, re, out, checked)
    ensures Prefix(out, re)
  {
  }

  lemma MessageGood(r: Rules, s: Sync, pre: seq<Header>, re: seq<Header>, out: seq<Header>, headers: seq<Header>)
    requires r.period > 0 && Buffering(r, s, pre, re, out)
    ensures RedownloadAll(r, s, headers).Good? <==> Continues(r, re, headers) && Agrees(r, pre, re + headers)
  {
    hide RedownloadInv, RedownloadAll, Continues, PermittedAt;
    BufferingFacts(r, s, pre, re, out);
    EmptyBefore(r, s, pre, re, out);
    SamePermitted(r, s, re, headers);
    if RedownloadAll(r, s, headers).Good? {
      forall i | 0 <= i < |headers| ensures PermittedAt(r, s, re, headers, i) {
        GoodPermitted(r, s, pre, re, out, |re|, headers, i);
      }
      var checked := RedownloadAllKeeps(r, s, pre, re, out, |re|, headers);
      AcceptedAgrees(r, RedownloadAll(r, s, headers).sync, pre, re + headers, out, checked);
    }
    if Continues(r, re, headers) && Agrees(r, pre, re + headers) {
      AgreesAll(r, s, pre, re, out, |re|, headers);
    }
  }

  lemma AcceptedAgrees(r: Rules, s: Sync, pre: seq<Header>, re: seq<Header>, out: seq<Header>, checked: nat)
    requires r.period > 0 && RedownloadInv(r, s, pre, re, out, checked)
    ensures Agrees(r, pre, re)
  {
    hide Bits, Work;
    assert AgreesUpTo(r, pre, re, checked);
  }

  /** With a buffer size above zero, it succeeds exactly if the two downloads together are accepted. */
  lemma RedownloadAccepts(r: Rules, s: Sync, pre: seq<Header>, re: seq<Header>, out: seq<Header>, headers: seq<Header>, fullMessage: bool)
    requires Buffering(r, s, pre, re, out) && headers != [] && r.bufferSize > 0
    ensures r.period > 0
    ensures Process(r, s, headers, fullMessage).1.success <==> exists checked: nat :: Accepted(r, pre, re + headers, checked)
  {
    hide Process, Continues, Bits, Work, Linked, Chained;
    var chain := re + headers;
    BufferingFacts(r, s, pre, re, out);
    BufferingAccepted(r, s, pre, re, out);
    RedownloadAnswer(r, s, pre, re, out, headers, fullMessage);
    ChainedIsLinked(r, re);
    ChainedIsLinked(r, chain);
    ContinuesIsLinked(r, re, headers);
    forall checked: nat ensures Accepted(r, pre, chain, checked) <==> Chained(r, chain) && AgreesUpTo(r, pre, chain, checked) {
    }
  }

  lemma BufferingAccepted(r: Rules, s: Sync, pre: seq<Header>, re: seq<Header>, out: seq<Header>)
    requires Buffering(r, s, pre, re, out)
    ensures r.period > 0 && Accepted(r, pre, re, |re|)
  {
  }

  /** An empty message, or one after the end, is refused and changes nothing. */
  lemma IgnoredAnswer(r: Rules, s: Sync, headers: seq<Header>, fullMessage: bool)
    requires r.period > 0 && (headers == [] || s.phase == Final)
    ensures Process(r, s, headers, fullMessage) == (s, ProcessingResult([], false, false))
  {
  }

  // ----- a buffer of size zero

  ghost predicate AllContiguous(r: Rules, messages: seq<Message>) {
    forall m | m in messages :: Contiguous(r, m.headers)
  }

  /** What a run releases is linked, and permitted in its difficulty throughout. */
  ghost predicate ReleasesLinked(r: Rules, messages: seq<Message>)
    requires r.period > 0
  {
    Linked(r, Run(r, Initial(r), messages).1)
  }

  lemma SizedBufferReleasesLinked(r: Rules, messages: seq<Message>)
    requires RulesOk(r) && r.bufferSize > 0 && AllContiguous(r, messages)
    ensures ReleasesLinked(r, messages)
  {
    hide Run, Linked;
    EveryRunIsSafe(r, messages);
    var out := Run(r, Initial(r), messages).1;
    if out == [] {
      NothingLinked(r);
    } else {
      var pre, re, checked :| ReleasedOk(r, pre, re, out, checked);
      ChainedIsLinked(r, re);
      LinkedPrefix(r, re, |out|);
    }
  }

  /** Headers for a run that breaks the difficulty rules: `p` brings the first download enough work at once, and
      `b` changes the difficulty of `a` as is not permitted, but may follow the starting block. */
  ghost predicate Breaks(r: Rules, p: Header, a: Header, b: Header) {
    var first, second := r.startHeight + 1, r.startHeight + 2;
    && r.period > 0 && r.bufferSize == 0 && !Commits(r, first) && !Commits(r, second)
    && p.prev == a.prev == r.hash(r.start) && b.prev == r.hash(a)
    && r.permitted(first, r.start.bits, p.bits) && r.startWork + r.proof(p.bits) >= r.minimumWork
    && r.permitted(first, r.start.bits, a.bits) && r.startWork + r.proof(a.bits) + r.proof(b.bits) < r.minimumWork
    && r.permitted(second, r.start.bits, b.bits) && !r.permitted(second, a.bits, b.bits)
  }

  /** With a buffer size of zero the second download forgets the difficulty of the header before, and the run
      releases a chain with a forbidden change. */
  lemma EmptyBufferForgetsDifficulty(r: Rules, p: Header, a: Header, b: Header)
    requires Breaks(r, p, a, b)
    ensures Run(r, Initial(r), [Message([p], true), Message([a], true), Message([b], true)]).1 == [a, b]
    ensures !Linked(r, [a, b])
  {
    hide Process;
    var s0 := Initial(r);
    var s1 := StartRedownload(r, PresyncOne(r, s0, p).sync);
    FirstDownload(r, s0, p);
    var s2 := SecondDownload(r, s1, a);
    var s3 := SecondDownload(r, s2, b);
    var m0, m1, m2 := Message([p], true), Message([a], true), Message([b], true);
    RunOne(r, s2, m2, []);
    RunOne(r, s1, m1, [m2]);
    RunOne(r, s0, m0, [m1, m2]);
    assert [a, b][..1] == [a] && !LinksAt(r, [a, b], 1);
  }

  lemma RunOne(r: Rules, s: Sync, m: Message, rest: seq<Message>)
    requires r.period > 0
    ensures var (n, result) := Process(r, s, m.headers, m.isFull);
            Run(r, s, [m] + rest) == (Run(r, n, rest).0, result.headers + Run(r, n, rest).1)
  {
    hide Process;
    assert ([m] + rest)[1..] == rest;
  }

  lemma FirstDownload(r: Rules, s: Sync, p: Header)
    requires r.period > 0 && s.phase == Presync && PresyncOne(r, s, p).Good? && p.prev == r.hash(s.last)
    requires PresyncOne(r, s, p).sync.work >= r.minimumWork
    ensures Process(r, s, [p], true) == (StartRedownload(r, PresyncOne(r, s, p).sync), ProcessingResult([], true, true))
  {
    hide PresyncOne;
    assert [p][1..] == [];
    assert PresyncAll(r, s, [p]) == PresyncOne(r, s, p);
  }

  lemma SecondDownload(r: Rules, s: Sync, h: Header) returns (n: Sync)
    requires r.period > 0 && r.bufferSize == 0 && s.phase == Redownload && s.buffer == [] && !s.processAll
    requires h.prev == s.bufferLastHash == s.bufferFirstPrev && !Commits(r, s.bufferHeight + 1)
    requires r.permitted(s.bufferHeight + 1, r.start.bits, h.bits) && s.bufferWork + r.proof(h.bits) < r.minimumWork
    ensures Process(r, s, [h], true) == (n, ProcessingResult([h], true, true))
    ensures n == s.(bufferWork := s.bufferWork + r.proof(h.bits), bufferHeight := s.bufferHeight + 1,
                    bufferLastHash := r.hash(h), bufferFirstPrev := r.hash(h))
  {
    hide RedownloadAll, Popped;
    var q := RedownloadOne(r, s, h).sync;
    RedownloadSingle(r, s, h);
    PopSingle(r, q, h);
    n := q.(buffer := [], bufferFirstPrev := r.hash(h));
  }

  lemma RedownloadSingle(r: Rules, s: Sync, h: Header)
    requires r.period > 0
    ensures RedownloadAll(r, s, [h]) == RedownloadOne(r, s, h)
  {
    hide RedownloadOne;
    assert [h][1..] == [];
  }

  lemma PopSingle(r: Rules, n: Sync, h: Header)
    requires r.bufferSize == 0 && n.buffer == [Compress(h)] && n.bufferFirstPrev == h.prev
    ensures Popped(r, n) == (n.(buffer := [], bufferFirstPrev := r.hash(h)), [h])
  {
    var m := n.(buffer := [], bufferFirstPrev := r.hash(h));
    assert n.buffer[1..] == [];
    assert Popped(r, m) == (m, []);
    assert [h] + [] == [h];
  }

  /** Rules under which a difficulty may change by one at each step. */
  const BROKEN_RULES := Rules(
    (h: Header) => h.nonce, (_: Hash) => false, (_: int, old_: nat, new_: nat) => -1 <= new_ - old_ <= 1,
    (bits: nat) => if bits == 1 then 100 else 1, 10, 5, 0, 50, 10, Header(0, 0, 0, 0, 1, 1), 0, 0)
  const BROKEN_P := Header(0, 1, 0, 0, 1, 2)
  const BROKEN_A := Header(0, 1, 0, 0, 0, 3)
  const BROKEN_B := Header(0, 3, 0, 0, 2, 4)

  lemma BrokenRun()
    ensures RulesOk(BROKEN_RULES) && Breaks(BROKEN_RULES, BROKEN_P, BROKEN_A, BROKEN_B)
  {
    var r := BROKEN_RULES;
    assert r.permitted(1, 1, 1) && r.permitted(1, 1, 0) && r.permitted(2, 1, 2) && !r.permitted(2, 0, 2);
    assert r.proof(1) == 100 && r.proof(0) == 1 && r.proof(2) == 1;
    assert r.hash(r.start) == 1 && r.hash(BROKEN_A) == 3;
    assert !Commits(r, 1) && !Commits(r, 2);
  }

  /** Whether all runs release permitted chains is decided by the buffer's size: they do exactly if it is not zero. */
  lemma BufferSizeDecides(size: nat)
    ensures size > 0 <==>
            forall r: Rules, messages: seq<Message> {:trigger ReleasesLinked(r, messages)}
              | RulesOk(r) && r.bufferSize == size && AllContiguous(r, messages) :: ReleasesLinked(r, messages)
  {
    hide Run, Linked;
    if size > 0 {
      forall r: Rules, messages: seq<Message> | RulesOk(r) && r.bufferSize == size && AllContiguous(r, messages)
        ensures ReleasesLinked(r, messages)
      {
        SizedBufferReleasesLinked(r, messages);
      }
    } else {
      BrokenRun();
      EmptyBufferForgetsDifficulty(BROKEN_RULES, BROKEN_P, BROKEN_A, BROKEN_B);
      var messages := [Message([BROKEN_P], true), Message([BROKEN_A], true), Message([BROKEN_B], true)];
      assert BROKEN_RULES.bufferSize == size && AllContiguous(BROKEN_RULES, messages);
      assert !ReleasesLinked(BROKEN_RULES, messages);
    }
  }
}
