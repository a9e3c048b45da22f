/** The odd/even sequence that lets the Host take a coherent copy of the
    telemetry block while the native workload keeps rewriting it word by word. */
module Telemetry {
  import opened Words

  /** The block as eight little-endian words. */
  type Block = b: seq<u16> | |b| == 8 witness [0, 0, 0, 0, 0, 0, 0, 0]

  const LED: nat := 0
  const TOGGLES: nat := 1
  const TX: nat := 2
  const RX: nat := 3
  const SEQ: nat := 4
  const EVENT: nat := 5
  const ARG: nat := 6
  const ERRORS: nat := 7

  const EVT_BOOT: u16 := 1
  const EVT_LED_ON: u16 := 2
  const EVT_LED_OFF: u16 := 3
  const EVT_QUEUE_SEND: u16 := 4
  const EVT_QUEUE_RECV: u16 := 5
  const EVT_ERROR: u16 := 6

  function Next16(n: u16): u16 { (n + 1) % W16 }

  /** `led_state ^= 1`. */
  function Flip(n: u16): u16 { if n % 2 == 0 then n + 1 else n - 1 }

  const CLEARED: Block := [0, 0, 0, 0, 0, 0, 0, 0]

  // ---- the writer -----------------------------------------------------------

  /** The critical sections of the workload's tasks. */
  datatype Update = Boot(stage: u16) | Blink | Sent(value: u16) | Received(value: u16) | Failed(code: u16)

  /** What one whole critical section means for the block. */
  function Effect(b: Block, u: Update): Block {
    var c := b[SEQ := Next16(Next16(b[SEQ]))];
    match u
    case Boot(stage) => c[EVENT := EVT_BOOT][ARG := stage]
    case Blink =>
      c[LED := Flip(b[LED])][TOGGLES := Next16(b[TOGGLES])]
       [EVENT := if Flip(b[LED]) != 0 then EVT_LED_ON else EVT_LED_OFF][ARG := Next16(b[TOGGLES])]
    case Sent(v) => c[TX := Next16(b[TX])][EVENT := EVT_QUEUE_SEND][ARG := v]
    case Received(v) => c[RX := Next16(b[RX])][EVENT := EVT_QUEUE_RECV][ARG := v]
    case Failed(code) => c[ERRORS := Next16(b[ERRORS])][EVENT := EVT_ERROR][ARG := code]
  }

  /** The block after a whole number of critical sections. */
  function Committed(updates: seq<Update>): Block {
    if updates == [] then CLEARED
    else Effect(Committed(updates[..|updates| - 1]), updates[|updates| - 1])
  }

  /** A point of the run: the block in memory, and how often its sequence word
      has been stored. */
  datatype Moment = Moment(block: Block, bumps: nat)

  /** What one word store does to a moment. */
  function Stored(m: Moment, index: nat, value: u16): Moment
    requires index < 8
  {
    Moment(m.block[index := value], m.bumps + if index == SEQ then 1 else 0)
  }

  /** The discipline: the sequence word is the store count, and every other word
      is stored only while that count is odd. */
  ghost predicate Disciplined(m: Moment, n: Moment) {
    || (n.bumps == m.bumps + 1 && n.block == m.block[SEQ := n.bumps % W16])
    || (n.bumps == m.bumps && m.bumps % 2 == 1 && n.block[SEQ] == m.block[SEQ])
  }

  ghost predicate Seqlocked(trace: seq<Moment>) {
    && trace != []
    && (forall i :: 0 <= i < |trace| ==> trace[i].block[SEQ] == trace[i].bumps % W16)
    && (forall i :: 0 < i < |trace| ==> Disciplined(trace[i - 1], trace[i]))
  }

  /** Every moment between critical sections holds a committed block. */
  ghost predicate Follows(trace: seq<Moment>, updates: seq<Update>) {
    && trace != [] && trace[|trace| - 1].bumps == 2 * |updates|
    && (forall i :: 0 <= i < |trace| ==> trace[i].bumps <= 2 * |updates|)
    && (forall i :: 0 <= i < |trace| && trace[i].bumps % 2 == 0 ==>
          trace[i].block == Committed(updates[..trace[i].bumps / 2]))
  }

  lemma FollowsCount(trace: seq<Moment>, updates: seq<Update>)
    requires Follows(trace, updates)
    ensures trace != [] && trace[|trace| - 1].bumps == 2 * |updates|
  {
  }

  lemma SeqlockedWord(trace: seq<Moment>)
    requires Seqlocked(trace)
    ensures trace != [] && trace[|trace| - 1].block[SEQ] == trace[|trace| - 1].bumps % W16
  {
  }

  lemma FollowsNext(trace: seq<Moment>, updates: seq<Update>, longer: seq<Moment>, u: Update)
    requires Follows(trace, updates)
    requires |trace| < |longer| && longer[..|trace|] == trace
    requires forall i :: |trace| <= i < |longer| - 1 ==> longer[i].bumps == 2 * |updates| + 1
    requires longer[|longer| - 1] == Moment(Effect(trace[|trace| - 1].block, u), 2 * |updates| + 2)
    ensures Follows(longer, updates + [u])
  {
    var all := updates + [u];
    assert all[..|updates|] == updates && updates[..|updates|] == updates && all[..|all|] == all;
    forall i | 0 <= i < |longer| && longer[i].bumps % 2 == 0
      ensures longer[i].block == Committed(all[..longer[i].bumps / 2])
    {
      if i < |trace| {
        assert longer[i] == trace[i];
        assert all[..trace[i].bumps / 2] == updates[..trace[i].bumps / 2];
      }
    }
    forall i | 0 <= i < |longer|
      ensures longer[i].bumps <= 2 * |all|
    {
      if i < |trace| { assert longer[i] == trace[i]; }
    }
  }

  /** The stores of a critical section in program order: `data` is the block
      once its data words are in place. */
  function InOrderStores(b: Block, data: Block, event: u16, arg: u16): Block {
    data[EVENT := event][ARG := arg][SEQ := Next16(Next16(b[SEQ]))]
  }

  lemma BlinkStores(b: Block)
    ensures var data := b[SEQ := Next16(b[SEQ])][LED := Flip(b[LED])][TOGGLES := Next16(b[TOGGLES])];
            InOrderStores(b, data, if data[LED] != 0 then EVT_LED_ON else EVT_LED_OFF, data[TOGGLES])
              == Effect(b, Blink)
  {
  }

  /** The workload's side, store by store. Each store appends a moment. */
  class Writer {
    const words: array<u16>
    var sequence: u16
    ghost var trace: seq<Moment>

    ghost predicate Valid()
      reads this, words
    {
      && words.Length == 8 && trace != []
      && Seqlocked(trace)
      && Now().block == words[..]
      && sequence == Now().bumps % W16
    }

    ghost function Now(): Moment
      reads this
      requires trace != []
    {
      trace[|trace| - 1]
    }

    constructor ()
      ensures Valid() && fresh(words) && Follows(trace, [])
    {
      words := new u16[8](_ => 0);
      sequence := 0;
      trace := [Moment(CLEARED, 0)];
      new;
      assert words[..] == CLEARED;
    }

    method Store(index: nat, value: u16)
      requires words.Length == 8 && trace != [] && Now().block == words[..] && index < 8
      modifies words, this`trace
      ensures trace == old(trace) + [Stored(old(Now()), index, value)]
      ensures words[..] == Now().block
    {
      words[index] := value;
      trace := trace + [Stored(Now(), index, value)];
    }

    method BeginUpdate()
      requires Valid() && Now().bumps % 2 == 0
      modifies this, words
      ensures Valid() && sequence == Next16(old(sequence))
      ensures trace == old(trace) + [Now()] && Now() == Stored(old(Now()), SEQ, Next16(old(sequence)))
    {
      hide Seqlocked; hide Next16;
      Next16Of(Now().bumps);
      ghost var longer := SeqlockedStore(trace, SEQ, Next16(sequence));
      sequence := Next16(sequence);
      Store(SEQ, sequence);
    }

    /** A data word inside a critical section. */
    method StoreData(index: nat, value: u16)
      requires Valid() && Now().bumps % 2 == 1 && index < 8 && index != SEQ
      modifies words, this`trace
      ensures Valid() && sequence == old(sequence)
      ensures trace == old(trace) + [Now()] && Now() == Stored(old(Now()), index, value)
    {
      hide Seqlocked;
      ghost var longer := SeqlockedStore(trace, index, value);
      Store(index, value);
    }

    method CommitEvent(event: u16, arg: u16)
      requires Valid() && Now().bumps % 2 == 1
      modifies this, words
      ensures Valid() && sequence == Next16(old(sequence))
      ensures |trace| == |old(trace)| + 3 && trace[..|old(trace)|] == old(trace)
      ensures trace[|old(trace)|].bumps == trace[|old(trace)| + 1].bumps == old(Now()).bumps
      ensures Now() == Moment(old(Now()).block[EVENT := event][ARG := arg][SEQ := Next16(old(sequence))],
                              old(Now()).bumps + 1)
    {
      hide Seqlocked; hide Next16;
      StoreData(EVENT, event);
      StoreData(ARG, arg);
      Next16Of(Now().bumps);
      ghost var longer := SeqlockedStore(trace, SEQ, Next16(sequence));
      sequence := Next16(sequence);
      Store(SEQ, sequence);
    }

    method PublishBootStage(stage: u16, ghost updates: seq<Update>)
      requires Valid() && Follows(trace, updates)
      modifies this, words
      ensures Valid() && old(trace) <= trace && Follows(trace, updates + [Boot(stage)])
    {
      hide Seqlocked; hide Follows; hide Next16; hide Flip;
      FollowsCount(trace, updates);
      SeqlockedWord(trace);
      BeginUpdate();
      CommitEvent(EVT_BOOT, stage);
      FollowsNext(old(trace), updates, trace, Boot(stage));
    }

    /** The odd sequence and the two data words of a blink. */
    method StoreBlink()
      requires Valid() && Now().bumps % 2 == 0
      modifies this, words
      ensures Valid() && sequence == Next16(old(sequence))
      ensures |trace| == |old(trace)| + 3 && trace[..|old(trace)|] == old(trace)
      ensures trace[|old(trace)|].bumps == trace[|old(trace)| + 1].bumps == old(Now()).bumps + 1
      ensures var b := old(Now()).block;
              Now() == Moment(b[SEQ := Next16(old(sequence))][LED := Flip(b[LED])][TOGGLES := Next16(b[TOGGLES])],
                              old(Now()).bumps + 1)
    {
      hide Seqlocked; hide Next16; hide Flip;
      OddNext(Now().bumps);
      BeginUpdate();
      StoreData(LED, Flip(words[LED]));
      StoreData(TOGGLES, Next16(words[TOGGLES]));
    }

    method PublishBlink(ghost updates: seq<Update>)
      requires Valid() && Follows(trace, updates)
      modifies this, words
      ensures Valid() && old(trace) <= trace && Follows(trace, updates + [Blink])
    {
      hide Seqlocked; hide Follows; hide Next16; hide Flip;
      FollowsCount(trace, updates);
      SeqlockedWord(trace);
      BlinkStores(words[..]);
      StoreBlink();
      ghost var middle := trace;
      CommitEvent(if words[LED] != 0 then EVT_LED_ON else EVT_LED_OFF, words[TOGGLES]);
      assert trace[..|old(trace)|] == middle[..|old(trace)|];
      FollowsNext(old(trace), updates, trace, Blink);
    }

    method PublishSent(value: u16, ghost updates: seq<Update>)
      requires Valid() && Follows(trace, updates)
      modifies this, words
      ensures Valid() && old(trace) <= trace && Follows(trace, updates + [Sent(value)])
    {
      hide Seqlocked; hide Follows; hide Next16; hide Flip;
      FollowsCount(trace, updates);
      SeqlockedWord(trace);
      BeginUpdate();
      StoreData(TX, Next16(words[TX]));
      CommitEvent(EVT_QUEUE_SEND, value);
      FollowsNext(old(trace), updates, trace, Sent(value));
    }

    method PublishReceived(value: u16, ghost updates: seq<Update>)
      requires Valid() && Follows(trace, updates)
      modifies this, words
      ensures Valid() && old(trace) <= trace && Follows(trace, updates + [Received(value)])
    {
      hide Seqlocked; hide Follows; hide Next16; hide Flip;
      FollowsCount(trace, updates);
      SeqlockedWord(trace);
      BeginUpdate();
      StoreData(RX, Next16(words[RX]));
      CommitEvent(EVT_QUEUE_RECV, value);
      FollowsNext(old(trace), updates, trace, Received(value));
    }

    method PublishFailure(code: u16, ghost updates: seq<Update>)
      requires Valid() && Follows(trace, updates)
      modifies this, words
      ensures Valid() && old(trace) <= trace && Follows(trace, updates + [Failed(code)])
    {
      hide Seqlocked; hide Follows; hide Next16; hide Flip;
      FollowsCount(trace, updates);
      SeqlockedWord(trace);
      BeginUpdate();
      StoreData(ERRORS, Next16(words[ERRORS]));
      CommitEvent(EVT_ERROR, code);
      FollowsNext(old(trace), updates, trace, Failed(code));
    }
  }

  // ---- the reader -------------------------------------------------------------

  /** One attempt of the Host: the moments at which it loads the sequence, each
      of the eight words, and the sequence again. */
  datatype Attempt = Attempt(before: nat, copies: seq<nat>, after: nat)

  predicate InOrder(a: Attempt, moments: nat) {
    && a.before <= a.after < moments
    && |a.copies| == 8
    && forall k :: 0 <= k < 8 ==> a.before <= a.copies[k] <= a.after
  }

  /** The snapshot assembled from words loaded at different moments. */
  function Copy(blocks: seq<Block>, a: Attempt): Block
    requires InOrder(a, |blocks|)
  {
    seq(8, k requires 0 <= k < 8 => blocks[a.copies[k]][k])
  }

  predicate Accepts(blocks: seq<Block>, a: Attempt)
    requires InOrder(a, |blocks|)
  {
    var sequence := blocks[a.before][SEQ];
    sequence % 2 == 0 && sequence == blocks[a.after][SEQ] == Copy(blocks, a)[SEQ]
  }

  /** A block, or one of the two errors: every attempt failed, or none was allowed. */
  datatype Snapshot = Stable(block: Block) | Unstable | NoAttempts

  /** `read_stable_telemetry`: the first attempt whose sequence words agree. */
  method ReadStable(blocks: seq<Block>, attempts: seq<Attempt>) returns (r: Snapshot)
    requires forall a :: a in attempts ==> InOrder(a, |blocks|)
    ensures r.Stable? ==> exists i :: 0 <= i < |attempts| && Accepts(blocks, attempts[i])
                                      && r.block == Copy(blocks, attempts[i])
                                      && forall j :: 0 <= j < i ==> !Accepts(blocks, attempts[j])
    ensures r.NoAttempts? <==> attempts == []
    ensures r.Unstable? ==> forall i :: 0 <= i < |attempts| ==> !Accepts(blocks, attempts[i])
  {
    if attempts == [] { return NoAttempts; }
    for i := 0 to |attempts|
      invariant forall j :: 0 <= j < i ==> !Accepts(blocks, attempts[j])
    {
      var a := attempts[i];
      assert a in attempts;
      var before := blocks[a.before][SEQ];
      if before % 2 == 0 {
        var raw := Copy(blocks, a);
        var after := blocks[a.after][SEQ];
        if before == after && after == raw[SEQ] { return Stable(raw); }
      }
    }
    r := Unstable;
  }

  // ---- coherence --------------------------------------------------------------

  function BlocksOf(trace: seq<Moment>): (b: seq<Block>)
    ensures |b| == |trace|
  {
    seq(|trace|, i requires 0 <= i < |trace| => trace[i].block)
  }

  lemma {:induction false} BumpsGrow(trace: seq<Moment>, i: nat, j: nat)
    requires Seqlocked(trace) && i <= j < |trace|
    ensures trace[i].bumps <= trace[j].bumps
    decreases j
  {
    if i < j {
      assert Disciplined(trace[j - 1], trace[j]);
      BumpsGrow(trace, i, j - 1);
    }
  }

  lemma SameResidue(m: nat, n: nat)
    requires m <= n < m + W16 && m % W16 == n % W16
    ensures m == n
  {
  }

  lemma EvenResidue(n: nat)
    requires n % W16 % 2 == 0
    ensures n % 2 == 0
  {
    assert n == W16 * (n / W16) + n % W16;
  }

  /** The copy is the block after some whole number of critical sections. */
  ghost predicate Coherent(trace: seq<Moment>, updates: seq<Update>, a: Attempt)
    requires InOrder(a, |trace|)
  {
    exists n :: 0 <= n <= |updates| && Copy(BlocksOf(trace), a) == Committed(updates[..n])
  }

  /** An attempt on a run of the writer that the Host accepts, with exactly `k`
      sequence stores inside it. */
  ghost predicate AcceptedWith(trace: seq<Moment>, updates: seq<Update>, a: Attempt, k: nat) {
    && Seqlocked(trace) && Follows(trace, updates) && InOrder(a, |trace|) && Accepts(BlocksOf(trace), a)
    && trace[a.after].bumps == trace[a.before].bumps + k
  }

  /** If fewer than 2^16 sequence stores fall inside an accepted attempt, then
      no store at all does, and the copy is one committed block: a mixture of
      two critical sections is never accepted. */
  lemma AcceptedIsCommitted(trace: seq<Moment>, updates: seq<Update>, a: Attempt, k: nat)
    requires AcceptedWith(trace, updates, a, k) && k < W16
    ensures a.before == a.after && Coherent(trace, updates, a)
  {
    var m, n := trace[a.before], trace[a.after];
    BumpsGrow(trace, a.before, a.after);
    SameResidue(m.bumps, n.bumps);
    EvenResidue(m.bumps);
    if a.before < a.after {
      assert Disciplined(trace[a.before], trace[a.before + 1]);
      BumpsGrow(trace, a.before + 1, a.after);
      assert false;
    }
    assert Copy(BlocksOf(trace), a) == m.block;
    assert m.block == Committed(updates[..m.bumps / 2]);
  }

  lemma NotAccepted(m: nat, k: nat)
    requires (m + k) % W16 == m % W16
    ensures k % W16 == 0
  {
    assert m + k == W16 * ((m + k) / W16) + m % W16;
    assert m == W16 * (m / W16) + m % W16;
    assert k == W16 * ((m + k) / W16 - m / W16);
  }

  /** Exactly when a copy may be trusted: with `k` sequence stores inside the
      attempt, every accepted copy of every run is coherent, if and only if `k`
      is zero or not a multiple of 2^16 (and then nothing is accepted). */
  lemma CoherentExactly(k: nat)
    ensures (forall trace, updates, a :: AcceptedWith(trace, updates, a, k) ==> Coherent(trace, updates, a))
            <==> (k == 0 || k % W16 != 0)
  {
    hide Seqlocked; hide Follows; hide Accepts;
    if k == 0 || k % W16 != 0 {
      forall trace: seq<Moment>, updates: seq<Update>, a: Attempt | AcceptedWith(trace, updates, a, k)
        ensures Coherent(trace, updates, a)
      {
        AcceptedResidue(trace, updates, a, k);
        AcceptedIsCommitted(trace, updates, a, k);
      }
    } else {
      assert k == k / W16 * W16;
      BoundIsTight(k / W16);
    }
  }

  lemma AcceptedResidue(trace: seq<Moment>, updates: seq<Update>, a: Attempt, k: nat)
    requires AcceptedWith(trace, updates, a, k)
    ensures k % W16 == 0
  {
    NotAccepted(trace[a.before].bumps, k);
  }

  // ---- the bound is needed ------------------------------------------------------

  function Blinks(n: nat): seq<Update> { seq(n, _ => Blink) }

  lemma BlinkEffect(b: Block)
    ensures var c := Effect(b, Blink);
            c[SEQ] == Next16(Next16(b[SEQ])) && c[TOGGLES] == c[ARG] == Next16(b[TOGGLES])
  {
  }

  lemma Next16Of(n: nat)
    ensures Next16(n % W16) == (n + 1) % W16
  {
  }

  lemma {:induction false} CommittedBlinks(n: nat)
    ensures var b := Committed(Blinks(n));
            b[SEQ] == 2 * n % W16 && b[TOGGLES] == n % W16 && b[ARG] == n % W16
  {
    if n != 0 {
      CommittedBlinks(n - 1);
      assert Blinks(n)[..n - 1] == Blinks(n - 1);
      BlinkEffect(Committed(Blinks(n - 1)));
      Next16Of(n - 1);
      Next16Of(2 * n - 2);
      Next16Of(2 * n - 1);
    }
  }

  /** A store that respects the discipline extends a seqlocked run. */
  lemma SeqlockedStore(trace: seq<Moment>, index: nat, value: u16) returns (longer: seq<Moment>)
    requires Seqlocked(trace) && index < 8
    requires var m := trace[|trace| - 1];
             if index == SEQ then value == (m.bumps + 1) % W16 else m.bumps % 2 == 1
    ensures longer == trace + [Stored(trace[|trace| - 1], index, value)] && Seqlocked(longer)
  {
    longer := trace + [Stored(trace[|trace| - 1], index, value)];
    assert Disciplined(trace[|trace| - 1], longer[|trace|]);
  }

  lemma OddNext(n: nat)
    requires n % 2 == 0
    ensures (n + 1) % 2 == 1
  {
  }

  /** The first three stores of a blink: the odd sequence and the data words. */
  lemma AppendData(trace: seq<Moment>) returns (longer: seq<Moment>)
    requires Seqlocked(trace) && trace[|trace| - 1].bumps % 2 == 0
    ensures Seqlocked(longer) && |longer| == |trace| + 3 && longer[..|trace|] == trace
    ensures var m := trace[|trace| - 1];
            && longer[|trace|].bumps == longer[|trace| + 1].bumps == m.bumps + 1
            && longer[|trace| + 2] == Moment(
                 m.block[SEQ := Next16(m.block[SEQ])][LED := Flip(m.block[LED])][TOGGLES := Next16(m.block[TOGGLES])],
                 m.bumps + 1)
  {
    hide Seqlocked; hide Next16; hide Flip;
    SeqlockedWord(trace);
    var m := trace[|trace| - 1];
    Next16Of(m.bumps);
    var m1 := Stored(m, SEQ, Next16(m.block[SEQ]));
    var m2 := Stored(m1, LED, Flip(m.block[LED]));
    var m3 := Stored(m2, TOGGLES, Next16(m.block[TOGGLES]));
    OddNext(m.bumps);
    hide Stored;
    var t1 := SeqlockedStore(trace, SEQ, Next16(m.block[SEQ]));
    var t2 := SeqlockedStore(t1, LED, Flip(m.block[LED]));
    longer := SeqlockedStore(t2, TOGGLES, Next16(m.block[TOGGLES]));
    assert longer == trace + [m1, m2, m3];
  }

  /** The last three: the event, its argument and the even sequence. */
  lemma AppendEvent(trace: seq<Moment>, event: u16, arg: u16) returns (longer: seq<Moment>)
    requires Seqlocked(trace) && trace[|trace| - 1].bumps % 2 == 1
    ensures Seqlocked(longer) && |longer| == |trace| + 3 && longer[..|trace|] == trace
    ensures var m := trace[|trace| - 1];
            && longer[|trace|].bumps == longer[|trace| + 1].bumps == m.bumps
            && longer[|trace| + 2] == Moment(m.block[EVENT := event][ARG := arg][SEQ := Next16(m.block[SEQ])], m.bumps + 1)
  {
    hide Seqlocked; hide Next16;
    SeqlockedWord(trace);
    var m := trace[|trace| - 1];
    Next16Of(m.bumps);
    var t1 := SeqlockedStore(trace, EVENT, event);
    var t2 := SeqlockedStore(t1, ARG, arg);
    longer := SeqlockedStore(t2, SEQ, Next16(m.block[SEQ]));
  }

  /** Appending the six stores of one blink to a run. */
  lemma AppendBlink(trace: seq<Moment>, updates: seq<Update>) returns (longer: seq<Moment>)
    requires Seqlocked(trace) && Follows(trace, updates)
    ensures Seqlocked(longer) && Follows(longer, updates + [Blink])
    ensures |longer| == |trace| + 6 && longer[..|trace|] == trace
  {
    hide Seqlocked; hide Follows; hide Next16; hide Flip;
    FollowsCount(trace, updates);
    SeqlockedWord(trace);
    var data := AppendData(trace);
    var last := data[|data| - 1].block;
    longer := AppendEvent(data, if last[LED] != 0 then EVT_LED_ON else EVT_LED_OFF, last[TOGGLES]);
    assert longer[..|trace|] == data[..|trace|];
    BlinkStores(trace[|trace| - 1].block);
    FollowsNext(trace, updates, longer, Blink);
  }

  /** A run of `n` blinks: six stores each, the first of them complete at moment 6. */
  lemma {:induction false} BlinkRun(n: nat) returns (trace: seq<Moment>)
    ensures Seqlocked(trace) && Follows(trace, Blinks(n)) && trace[0].bumps == 0
    ensures |trace| == 1 + 6 * n && (n != 0 ==> trace[6].bumps == 2)
  {
    hide Seqlocked; hide Follows;
    if n == 0 {
      trace := [Moment(CLEARED, 0)];
      OneMoment();
    } else {
      var shorter := BlinkRun(n - 1);
      trace := AppendBlink(shorter, Blinks(n - 1));
      assert Blinks(n - 1) + [Blink] == Blinks(n);
      FollowsCount(trace, Blinks(n));
      if n != 1 { assert trace[..|shorter|][6] == shorter[6]; }
      assert trace[..|shorter|][0] == shorter[0];
    }
  }

  lemma OneMoment()
    ensures Seqlocked([Moment(CLEARED, 0)]) && Follows([Moment(CLEARED, 0)], Blinks(0))
  {
  }

  /** The whole block at the end, but for the toggle count of the first blink. */
  function TornAt(last: nat): Attempt { Attempt(0, [last, 6, last, last, last, last, last, last], last) }

  lemma HalfTurns(m: nat)
    ensures 2 * (0x8000 * m) == m * W16 && 0x8000 * m % W16 != 1
  {
    assert 0x8000 * m == W16 * (m / 2) + 0x8000 * (m % 2);
  }

  /** The words the torn copy is made of. */
  lemma TornWords(trace: seq<Moment>, m: nat)
    requires m != 0 && Follows(trace, Blinks(0x8000 * m))
    requires |trace| == 1 + 6 * (0x8000 * m) && trace[0].bumps == 0 && trace[6].bumps == 2
    ensures var last := trace[|trace| - 1];
            && last.bumps == m * W16 && last.block[SEQ] == 0 && last.block[ARG] == 0x8000 * m % W16
            && trace[0].block[SEQ] == 0 && trace[6].block[TOGGLES] == 1
  {
    hide Committed;
    var count := 0x8000 * m;
    var all := Blinks(count);
    HalfTurns(m);
    assert all[..0] == Blinks(0) && all[..1] == Blinks(1) && all[..count] == all;
    CommittedBlinks(0);
    CommittedBlinks(1);
    CommittedBlinks(count);
  }

  lemma TornCopy(trace: seq<Moment>, m: nat)
    requires m != 0 && Seqlocked(trace) && Follows(trace, Blinks(0x8000 * m))
    requires |trace| == 1 + 6 * (0x8000 * m) && trace[0].bumps == 0 && trace[6].bumps == 2
    ensures var a, updates := TornAt(|trace| - 1), Blinks(0x8000 * m);
            AcceptedWith(trace, updates, a, m * W16) && !Coherent(trace, updates, a)
  {
    hide Seqlocked; hide Follows; hide Committed;
    var all := Blinks(0x8000 * m);
    TornWords(trace, m);
    HalfTurns(m);
    var copy := Copy(BlocksOf(trace), TornAt(|trace| - 1));
    forall n | 0 <= n <= |all|
      ensures copy != Committed(all[..n])
    {
      assert all[..n] == Blinks(n);
      CommittedBlinks(n);
    }
  }

  /** With any positive multiple of 2^16 sequence stores inside the attempt the
      sequence words can agree again: the Host then accepts a block that was
      never in memory. */
  lemma BoundIsTight(m: nat)
    requires m != 0
    ensures exists trace, updates, a :: AcceptedWith(trace, updates, a, m * W16) && !Coherent(trace, updates, a)
  {
    hide AcceptedWith; hide Coherent; hide Seqlocked; hide Follows;
    var trace := BlinkRun(0x8000 * m);
    TornCopy(trace, m);
    assert AcceptedWith(trace, Blinks(0x8000 * m), TornAt(|trace| - 1), m * W16);
  }
}
