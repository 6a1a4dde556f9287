/** Group commit: writers queue up, the one in front logs and inserts for itself and for as
    many behind it as may join its group, and pops them all when it is done.

    The steps are what happens between two releases of the mutex.  `entered` is every
    writer that ever joined the queue, in order. */
module GroupCommit {
  import opened Options

  /** A queued write: the byte size and the number of operations of its batch, if it has
      one, and whether it asks for the log to be synced. */
  datatype Writer = Writer(batch: Option<Batch>, sync: bool)

  datatype Batch = Batch(size: nat, count: nat)

  const MAX_GROUP := 0x10_0000

  const SMALL_BATCH := 0x2_0000

  function MaxSize(size: nat): nat {
    if size <= SMALL_BATCH then size + SMALL_BATCH else MAX_GROUP
  }

  function CountOf(w: Writer): nat {
    if w.batch.Some? then w.batch.value.count else 0
  }

  // ----- which writers join the group -----

  /** How many writers from position i on join a group that so far has this size. */
  function JoinFrom(queue: seq<Writer>, i: nat, size: nat, maxSize: nat): (n: nat)
    requires 0 < i <= |queue|
    ensures i + n <= |queue|
    decreases |queue| - i
  {
    if i == |queue| then 0
    else if queue[i].sync && !queue[0].sync then 0
    else if queue[i].batch.None? then 1 + JoinFrom(queue, i + 1, size, maxSize)
    else if size + queue[i].batch.value.size > maxSize then 0
    else 1 + JoinFrom(queue, i + 1, size + queue[i].batch.value.size, maxSize)
  }

  function GroupLength(queue: seq<Writer>): (k: nat)
    requires queue != [] && queue[0].batch.Some?
    ensures 0 < k <= |queue|
  {
    var size := queue[0].batch.value.size;
    1 + JoinFrom(queue, 1, size, MaxSize(size))
  }

  lemma GroupUnfold(queue: seq<Writer>)
    requires queue != [] && queue[0].batch.Some?
    ensures
      var size := queue[0].batch.value.size;
      GroupLength(queue) == 1 + JoinFrom(queue, 1, size, MaxSize(size))
  {
  }

  lemma JoinUnfold(queue: seq<Writer>, i: nat, size: nat, maxSize: nat)
    requires 0 < i <= |queue|
    ensures
      var joins := i < |queue| && !(queue[i].sync && !queue[0].sync);
      JoinFrom(queue, i, size, maxSize)
        == if joins && queue[i].batch.None? then 1 + JoinFrom(queue, i + 1, size, maxSize)
           else if joins && size + queue[i].batch.value.size <= maxSize then
             1 + JoinFrom(queue, i + 1, size + queue[i].batch.value.size, maxSize)
           else 0
  {
  }

  function SizeOf(group: seq<Writer>): nat {
    if group == [] then 0
    else
      var w := group[|group| - 1];
      SizeOf(group[..|group| - 1]) + if w.batch.Some? then w.batch.value.size else 0
  }

  /** A group follows the rules, and is as long as they allow: a sync write is never
      handled by a leader that does not sync, joining never makes the group too big, and
      the next writer could not have joined. */
  ghost predicate GoodGroup(queue: seq<Writer>, k: nat)
    requires 0 < k <= |queue| && queue[0].batch.Some?
  {
    var maxSize := MaxSize(queue[0].batch.value.size);
    && (forall i :: 0 <= i < k && queue[i].sync ==> queue[0].sync)
    && (SizeOf(queue[..k]) <= maxSize || SizeOf(queue[..k]) == queue[0].batch.value.size)
    && (k < |queue| ==>
          || (queue[k].sync && !queue[0].sync)
          || (queue[k].batch.Some? && SizeOf(queue[..k + 1]) > maxSize))
  }

  lemma SizeNext(queue: seq<Writer>, i: nat)
    requires i < |queue|
    ensures SizeOf(queue[..i + 1]) == SizeOf(queue[..i]) + if queue[i].batch.None? then 0 else queue[i].batch.value.size
  {
    assert queue[..i + 1][..i] == queue[..i];
  }

  lemma {:induction false} JoinFromGood(queue: seq<Writer>, i: nat, size: nat)
    requires 0 < i <= |queue| && queue[0].batch.Some? && size == SizeOf(queue[..i])
    requires forall j :: 0 <= j < i && queue[j].sync ==> queue[0].sync
    requires size <= MaxSize(queue[0].batch.value.size) || size == queue[0].batch.value.size
    ensures GoodGroup(queue, i + JoinFrom(queue, i, size, MaxSize(queue[0].batch.value.size)))
    decreases |queue| - i
  {
    hide JoinFrom, SizeOf;
    JoinUnfold(queue, i, size, MaxSize(queue[0].batch.value.size));
    assert queue[..|queue|] == queue;
    if i < |queue| {
      SizeNext(queue, i);
      var w := queue[i];
      if !(w.sync && !queue[0].sync) {
        if w.batch.None? {
          JoinFromGood(queue, i + 1, size);
        } else if size + w.batch.value.size <= MaxSize(queue[0].batch.value.size) {
          JoinFromGood(queue, i + 1, size + w.batch.value.size);
        }
      }
    }
  }

  lemma GroupIsGood(queue: seq<Writer>)
    requires queue != [] && queue[0].batch.Some?
    ensures GoodGroup(queue, GroupLength(queue))
  {
    assert queue[..1][..0] == [];
    assert SizeOf(queue[..1]) == queue[0].batch.value.size;
    JoinFromGood(queue, 1, queue[0].batch.value.size);
  }

  // ----- the machine -----

  datatype Status = Ok | Failed

  /** The sequence numbers first, ..., first + count - 1. */
  datatype Range = Range(first: nat, count: nat)

  /** What a popped writer was told, and the log record its batch went into. */
  datatype Ack = Ack(status: Status, record: Option<nat>)

  /** Idle, or the writer in front handling the first k of the queue. */
  datatype Phase =
    | Idle
    | Logging(k: nat)
    | Syncing(k: nat)
    | Inserting(k: nat, done: nat)
    | Giving(k: nat, syncError: bool)

  datatype State = State(
    entered: seq<Writer>,
    queue: seq<Writer>,
    acks: seq<Ack>,
    ranges: seq<Range>,
    phase: Phase,
    base: nat,
    lastSequence: nat,
    log: seq<Range>,
    synced: nat,
    inserted: set<nat>,
    bgError: Option<nat>)

  function GroupOf(s: State): nat {
    if s.phase.Idle? then 0 else s.phase.k
  }

  function Total(ws: seq<Writer>): nat {
    if ws == [] then 0 else Total(ws[..|ws| - 1]) + CountOf(ws[|ws| - 1])
  }

  /** The ranges of a group: one after another from the first free number. */
  function RangesFrom(first: nat, ws: seq<Writer>): (rs: seq<Range>)
    ensures |rs| == |ws|
  {
    if ws == [] then []
    else
      var front := ws[..|ws| - 1];
      RangesFrom(first, front) + [Range(first + Total(front), CountOf(ws[|ws| - 1]))]
  }

  datatype Step =
    | Enter(w: Writer)
    | Refuse
    | Force
    | Begin
    | LogRecord(ok: bool)
    | SyncLog(ok: bool)
    | InsertEntry
    | Finish
    | BackgroundFails

  predicate Enabled(s: State, step: Step) {
    match step
    case Enter(_) => true
    case Refuse => s.phase.Idle? && s.queue != []
    case Force => s.phase.Idle? && s.queue != [] && s.queue[0].batch.None? && s.bgError.None?
    case Begin => s.phase.Idle? && s.queue != [] && s.queue[0].batch.Some? && s.bgError.None?
    case LogRecord(_) => s.phase.Logging?
    case SyncLog(_) => s.phase.Syncing?
    case InsertEntry => s.phase.Inserting? && s.phase.done < Total(Group(s))
    case Finish => s.phase.Giving? || (s.phase.Inserting? && s.phase.done == Total(Group(s)))
    case BackgroundFails => true
  }

  /** The writers of the running group. */
  function Group(s: State): seq<Writer> {
    if GroupOf(s) <= |s.queue| then s.queue[..GroupOf(s)] else s.queue
  }

  function Same(n: nat, ack: Ack): (acks: seq<Ack>)
    ensures |acks| == n
  {
    seq(n, _ => ack)
  }

  /** Pops the writers of a group; their count of sequence numbers is used up, whatever
      the outcome. */
  function PopGroup(s: State): State
    requires s.phase.Giving? || s.phase.Inserting?
  {
    var k := |Group(s)|;
    var ok := s.phase.Inserting?;
    var record := if ok || s.phase.syncError then (if |s.log| > 0 then Some(|s.log| - 1) else None) else None;
    s.(queue := s.queue[k..],
       acks := s.acks + Same(k, Ack(if ok then Ok else Failed, record)),
       phase := Idle,
       lastSequence := s.lastSequence + Total(Group(s)),
       bgError := if s.bgError.None? && s.phase.Giving? && s.phase.syncError then Some(|s.acks| + k) else s.bgError)
  }

  /** Pops the writer in front alone, without a sequence number. */
  function PopOne(s: State, status: Status): State
    requires s.queue != []
  {
    s.(queue := s.queue[1..],
       acks := s.acks + [Ack(status, None)],
       ranges := s.ranges + [Range(s.lastSequence + 1, 0)])
  }

  function Apply(s: State, step: Step): State
    requires Enabled(s, step)
  {
    match step
    case Enter(w) => s.(entered := s.entered + [w], queue := s.queue + [w])
    case Refuse => PopOne(s, Failed)
    case Force => PopOne(s, Ok)
    case Begin =>
      var k := GroupLength(s.queue);
      s.(phase := Logging(k), ranges := s.ranges + RangesFrom(s.lastSequence + 1, s.queue[..k]))
    case LogRecord(ok) =>
      if !ok then s.(phase := Giving(s.phase.k, false))
      else
        s.(log := s.log + [Range(s.lastSequence + 1, Total(Group(s)))],
           phase := if s.queue != [] && s.queue[0].sync then Syncing(s.phase.k) else Inserting(s.phase.k, 0))
    case SyncLog(ok) =>
      if ok then s.(synced := |s.log|, phase := Inserting(s.phase.k, 0)) else s.(phase := Giving(s.phase.k, true))
    case InsertEntry =>
      s.(inserted := s.inserted + {s.lastSequence + s.phase.done + 1}, phase := Inserting(s.phase.k, s.phase.done + 1))
    case Finish => PopGroup(s)
    case BackgroundFails => if s.bgError.None? then s.(bgError := Some(|s.acks| + GroupOf(s))) else s
  }

  // ----- invariant -----

  /** Every writer that entered has been popped once, in order, or is still queued; the
      running group is the front of the queue. */
  predicate QueueOk(s: State) {
    && |s.acks| <= |s.entered| && s.queue == s.entered[|s.acks|..]
    && (!s.phase.Idle? ==> 0 < s.phase.k <= |s.queue| && s.queue[0].batch.Some?)
    && |s.ranges| == |s.acks| + GroupOf(s)
  }

  /** The end of a list of ranges that follow one another without gaps. */
  function EndOf(base: nat, rs: seq<Range>): nat {
    if rs == [] then base else EndOf(base, rs[..|rs| - 1]) + rs[|rs| - 1].count
  }

  predicate Contiguous(base: nat, rs: seq<Range>) {
    forall i :: 0 <= i < |rs| ==> rs[i].first == EndOf(base, rs[..i]) + 1
  }

  /** Ranges follow one another in queue order; those up to the last popped writer end at
      the last sequence number. */
  predicate RangesOk(s: State)
    requires QueueOk(s)
  {
    && Contiguous(s.base, s.ranges)
    && s.lastSequence == EndOf(s.base, s.ranges[..|s.acks|])
    && s.ranges[|s.acks|..] == RangesFrom(s.lastSequence + 1, Group(s))
  }

  /** The group's sync rule, and that a group past its log record has one. */
  predicate GroupOk(s: State)
    requires QueueOk(s)
  {
    && (forall i :: 0 <= i < |Group(s)| && Group(s)[i].sync ==> s.queue[0].sync)
    && (s.phase.Syncing? ==> s.queue[0].sync)
    && (s.phase.Inserting? || s.phase.Syncing? || (s.phase.Giving? && s.phase.syncError) ==>
          s.log != [] && s.log[|s.log| - 1] == Range(s.lastSequence + 1, Total(Group(s))))
    && (s.phase.Inserting? && s.queue[0].sync ==> s.synced == |s.log|)
    && s.synced <= |s.log|
  }

  predicate Covers(r: Range, x: Range) {
    r.first <= x.first && x.first + x.count <= r.first + r.count
  }

  /** A sync write that was told OK lies in a log record that was synced. */
  predicate SyncOk(s: State)
    requires QueueOk(s)
  {
    forall i :: 0 <= i < |s.acks| && s.acks[i].status == Ok && s.entered[i].sync && s.entered[i].batch.Some? ==>
      && s.acks[i].record.Some? && s.acks[i].record.value < s.synced <= |s.log|
      && Covers(s.log[s.acks[i].record.value], s.ranges[i])
  }

  predicate AllIn(r: Range, inserted: set<nat>) {
    forall n :: r.first <= n < r.first + r.count ==> n in inserted
  }

  predicate NoneIn(r: Range, inserted: set<nat>) {
    forall n :: r.first <= n < r.first + r.count ==> n !in inserted
  }

  /** How far the running group's entries are in. */
  function DoneOf(s: State): nat {
    if s.phase.Inserting? then s.phase.done else 0
  }

  /** A popped batch is wholly in the memtable if it was told OK, and otherwise wholly out;
      of the running group the first entries are in. */
  predicate InsertedOk(s: State)
    requires QueueOk(s)
  {
    && (s.phase.Inserting? ==> s.phase.done <= Total(Group(s)))
    && (forall n :: n in s.inserted ==> n <= s.lastSequence + DoneOf(s))
    && (forall n :: s.lastSequence < n <= s.lastSequence + DoneOf(s) ==> n in s.inserted)
    && (forall i :: 0 <= i < |s.acks| ==> if s.acks[i].status == Ok then AllIn(s.ranges[i], s.inserted) else NoneIn(s.ranges[i], s.inserted))
  }

  /** After an error nobody is told OK any more. */
  predicate ErrorOk(s: State) {
    s.bgError.Some? ==>
      && s.bgError.value <= |s.acks| + GroupOf(s)
      && (!s.phase.Idle? ==> s.bgError.value == |s.acks| + GroupOf(s))
      && forall i :: s.bgError.value <= i < |s.acks| ==> s.acks[i].status == Failed
  }

  predicate Inv(s: State) {
    QueueOk(s) && RangesOk(s) && GroupOk(s) && SyncOk(s) && InsertedOk(s) && ErrorOk(s)
  }

  function Init(base: nat): State {
    State([], [], [], [], Idle, base, base, [], 0, {}, None)
  }

  // ----- every step keeps the invariant -----

  lemma InitInv(base: nat)
    ensures Inv(Init(base))
  {
  }

  lemma EndOfOne(base: nat, rs: seq<Range>, r: Range)
    ensures EndOf(base, rs + [r]) == EndOf(base, rs) + r.count
  {
    assert (rs + [r])[..|rs|] == rs;
  }

  lemma ContiguousOne(base: nat, rs: seq<Range>, r: Range)
    requires Contiguous(base, rs) && r.first == EndOf(base, rs) + 1
    ensures Contiguous(base, rs + [r])
  {
    var all := rs + [r];
    forall i | 0 <= i < |all| ensures all[i].first == EndOf(base, all[..i]) + 1 {
      assert all[..i] == rs[..i];
    }
  }

  /** A group's ranges follow on without gaps and use up its count. */
  lemma {:induction false} GroupContiguous(base: nat, rs: seq<Range>, ws: seq<Writer>)
    requires Contiguous(base, rs)
    ensures
      var all := rs + RangesFrom(EndOf(base, rs) + 1, ws);
      Contiguous(base, all) && EndOf(base, all) == EndOf(base, rs) + Total(ws)
  {
    if ws == [] {
      assert rs + [] == rs;
    } else {
      var front, w := ws[..|ws| - 1], ws[|ws| - 1];
      GroupContiguous(base, rs, front);
      var before := rs + RangesFrom(EndOf(base, rs) + 1, front);
      var r := Range(EndOf(base, rs) + 1 + Total(front), CountOf(w));
      assert rs + RangesFrom(EndOf(base, rs) + 1, ws) == before + [r];
      ContiguousOne(base, before, r);
      EndOfOne(base, before, r);
    }
  }

  lemma {:induction false} RangesInside(first: nat, ws: seq<Writer>, i: nat)
    requires i < |ws|
    ensures Covers(Range(first, Total(ws)), RangesFrom(first, ws)[i])
    decreases |ws|
  {
    if i < |ws| - 1 {
      RangesInside(first, ws[..|ws| - 1], i);
    }
  }

  lemma EnterKeepsInv(s: State, w: Writer)
    requires Inv(s)
    ensures Inv(Apply(s, Enter(w)))
  {
    hide EndOf, Contiguous, RangesFrom, Total, SyncOk, Covers, InsertedOk, AllIn, NoneIn, GroupOk, Group;
    var s' := Apply(s, Enter(w));
    assert s'.entered[|s.acks|..] == s.queue + [w];
    EnterKeepsGroup(s, w);
    EnterKeepsPopped(s, w);
  }

  lemma EnterKeepsGroup(s: State, w: Writer)
    requires QueueOk(s)
    ensures QueueOk(Apply(s, Enter(w))) && Group(Apply(s, Enter(w))) == Group(s)
    ensures GroupOk(s) ==> GroupOk(Apply(s, Enter(w)))
  {
    hide Total;
    var s' := Apply(s, Enter(w));
    assert s'.entered[|s.acks|..] == s.queue + [w];
    assert Group(s') == Group(s);
  }

  lemma EnterKeepsPopped(s: State, w: Writer)
    requires QueueOk(s) && SyncOk(s) && InsertedOk(s) && Group(Apply(s, Enter(w))) == Group(s) && QueueOk(Apply(s, Enter(w)))
    ensures SyncOk(Apply(s, Enter(w))) && InsertedOk(Apply(s, Enter(w)))
  {
    hide Group, Covers, AllIn, NoneIn, Total;
  }

  lemma PopOneKeepsInv(s: State, status: Status)
    requires Inv(s) && s.phase.Idle? && s.queue != [] && (status == Ok ==> s.bgError.None? && s.queue[0].batch.None?)
    ensures Inv(PopOne(s, status))
  {
    hide EndOf, Contiguous;
    var s', r := PopOne(s, status), Range(s.lastSequence + 1, 0);
    assert s.entered[|s.acks|] == s.queue[0];
    assert s.ranges[..|s.acks|] == s.ranges;
    ContiguousOne(s.base, s.ranges, r);
    EndOfOne(s.base, s.ranges, r);
    assert s'.ranges[..|s'.acks|] == s'.ranges;
    assert Group(s') == [];
  }

  lemma BeginKeepsInv(s: State)
    requires Inv(s) && Enabled(s, Begin)
    ensures Inv(Apply(s, Begin))
  {
    hide EndOf, Contiguous, GroupLength, SizeOf, Total, RangesFrom, Covers, AllIn, NoneIn, GroupOk, SyncOk, InsertedOk;
    var s', k := Apply(s, Begin), GroupLength(s.queue);
    GroupIsGood(s.queue);
    assert s.ranges[..|s.acks|] == s.ranges;
    GroupContiguous(s.base, s.ranges, s.queue[..k]);
    assert s'.ranges[..|s.acks|] == s.ranges;
    assert s'.ranges[|s.acks|..] == RangesFrom(s.lastSequence + 1, s.queue[..k]);
    BeginKeepsPopped(s);
  }

  lemma BeginKeepsPopped(s: State)
    requires Enabled(s, Begin) && GoodGroup(s.queue, GroupLength(s.queue))
    requires QueueOk(s) && QueueOk(Apply(s, Begin)) && GroupOk(s) && SyncOk(s) && InsertedOk(s)
    ensures GroupOk(Apply(s, Begin)) && SyncOk(Apply(s, Begin)) && InsertedOk(Apply(s, Begin))
  {
    hide EndOf, Contiguous, GroupLength, SizeOf, Total, RangesFrom, Covers, AllIn, NoneIn;
  }

  lemma LogKeepsInv(s: State, step: Step)
    requires Inv(s) && Enabled(s, step) && (step.LogRecord? || step.SyncLog?)
    ensures Inv(Apply(s, step))
  {
    hide EndOf, Contiguous, RangesFrom, Total;
    var s' := Apply(s, step);
    assert Group(s') == Group(s);
  }

  lemma InsertKeepsInv(s: State)
    requires Inv(s) && Enabled(s, InsertEntry)
    ensures Inv(Apply(s, InsertEntry))
  {
    hide RangesFrom, Total;
    var s' := Apply(s, InsertEntry);
    assert Group(s') == Group(s);
    forall i | 0 <= i < |s.acks|
      ensures if s'.acks[i].status == Ok then AllIn(s'.ranges[i], s'.inserted) else NoneIn(s'.ranges[i], s'.inserted)
    {
      PoppedBelow(s, i);
    }
  }

  lemma {:induction false} EndOfGrows(base: nat, rs: seq<Range>, i: nat)
    requires i <= |rs|
    ensures EndOf(base, rs[..i]) <= EndOf(base, rs)
    decreases |rs|
  {
    if i < |rs| {
      EndOfGrows(base, rs[..|rs| - 1], i);
      assert rs[..|rs| - 1][..i] == rs[..i];
    } else {
      assert rs[..i] == rs;
    }
  }

  /** Popped writers' numbers are at most the last sequence number, the running group's are
      above it: whoever reads at it sees no batch in part. */
  lemma PoppedBelow(s: State, i: nat)
    requires QueueOk(s) && RangesOk(s) && i < |s.acks|
    ensures s.ranges[i].first + s.ranges[i].count <= s.lastSequence + 1
  {
    var popped := s.ranges[..|s.acks|];
    EndOfGrows(s.base, popped, i + 1);
    EndOfOne(s.base, popped[..i], popped[i]);
    assert popped[..i + 1] == popped[..i] + [popped[i]];
    assert popped[..i] == s.ranges[..i];
  }

  lemma {:induction false} RangesAbove(first: nat, ws: seq<Writer>, i: nat)
    requires i < |ws|
    ensures RangesFrom(first, ws)[i].first >= first
    decreases |ws|
  {
    if i < |ws| - 1 {
      RangesAbove(first, ws[..|ws| - 1], i);
    }
  }

  lemma FinishKeepsQueue(s: State)
    requires Inv(s) && Enabled(s, Finish)
    ensures QueueOk(Apply(s, Finish)) && RangesOk(Apply(s, Finish))
  {
    hide RangesFrom, Total, Contiguous, EndOf, GroupOk, SyncOk, InsertedOk, ErrorOk;
    var s', k := Apply(s, Finish), s.phase.k;
    assert s.entered[|s.acks| + k..] == s.queue[k..];
    RangesUsedUp(s);
    assert s'.ranges[..|s'.acks|] == s.ranges;
    assert s'.ranges[|s'.acks|..] == [] && Group(s') == [];
    NoRanges(s'.lastSequence + 1);
  }

  lemma RangesUsedUp(s: State)
    requires QueueOk(s) && RangesOk(s)
    ensures EndOf(s.base, s.ranges) == s.lastSequence + Total(Group(s))
  {
    hide RangesFrom, Total, Contiguous, EndOf;
    var popped := s.ranges[..|s.acks|];
    assert s.ranges == popped + RangesFrom(s.lastSequence + 1, Group(s));
    PrefixContiguous(s.base, s.ranges, |s.acks|);
    GroupContiguous(s.base, popped, Group(s));
  }

  lemma NoRanges(first: nat)
    ensures RangesFrom(first, []) == []
  {
  }

  lemma PrefixContiguous(base: nat, rs: seq<Range>, n: nat)
    requires Contiguous(base, rs) && n <= |rs|
    ensures Contiguous(base, rs[..n])
  {
    forall i | 0 <= i < n ensures rs[..n][i].first == EndOf(base, rs[..n][..i]) + 1 {
      assert rs[..n][..i] == rs[..i];
    }
  }

  /** The i-th writer of the running group: its range, inside the group's log record. */
  lemma InGroup(s: State, i: nat)
    requires QueueOk(s) && RangesOk(s) && |s.acks| <= i < |s.acks| + GroupOf(s)
    ensures s.ranges[i] == RangesFrom(s.lastSequence + 1, Group(s))[i - |s.acks|]
    ensures Covers(Range(s.lastSequence + 1, Total(Group(s))), s.ranges[i])
    ensures s.entered[i] == Group(s)[i - |s.acks|]
  {
    hide RangesFrom, Total;
    RangesInside(s.lastSequence + 1, Group(s), i - |s.acks|);
    assert s.ranges[|s.acks|..][i - |s.acks|] == s.ranges[i];
  }

  lemma FinishKeepsSync(s: State)
    requires Inv(s) && Enabled(s, Finish) && QueueOk(Apply(s, Finish))
    ensures SyncOk(Apply(s, Finish)) && GroupOk(Apply(s, Finish)) && ErrorOk(Apply(s, Finish))
  {
    hide RangesFrom, Total, Contiguous, EndOf;
    var s' := Apply(s, Finish);
    assert Group(s') == [];
    forall i | 0 <= i < |s'.acks| && s'.acks[i].status == Ok && s'.entered[i].sync && s'.entered[i].batch.Some?
      ensures s'.acks[i].record.Some? && s'.acks[i].record.value < s'.synced <= |s'.log|
      ensures Covers(s'.log[s'.acks[i].record.value], s'.ranges[i])
    {
      if i >= |s.acks| {
        InGroup(s, i);
      }
    }
  }

  lemma FinishKeepsInserted(s: State)
    requires Inv(s) && Enabled(s, Finish) && QueueOk(Apply(s, Finish))
    ensures InsertedOk(Apply(s, Finish))
  {
    hide RangesFrom, Total, Contiguous, EndOf;
    var s' := Apply(s, Finish);
    assert Group(s') == [] && DoneOf(s') == 0;
    forall i | 0 <= i < |s'.acks|
      ensures if s'.acks[i].status == Ok then AllIn(s'.ranges[i], s'.inserted) else NoneIn(s'.ranges[i], s'.inserted)
    {
      if i >= |s.acks| {
        InGroup(s, i);
      }
    }
  }

  lemma StepKeepsInv(s: State, step: Step)
    requires Inv(s) && Enabled(s, step)
    ensures Inv(Apply(s, step))
  {
    hide QueueOk, RangesOk, GroupOk, SyncOk, InsertedOk;
    match step {
      case Enter(w) => EnterKeepsInv(s, w);
      case Refuse => PopOneKeepsInv(s, Failed);
      case Force => PopOneKeepsInv(s, Ok);
      case Begin => BeginKeepsInv(s);
      case LogRecord(_) => LogKeepsInv(s, step);
      case SyncLog(_) => LogKeepsInv(s, step);
      case InsertEntry => InsertKeepsInv(s);
      case Finish =>
        FinishKeepsQueue(s);
        FinishKeepsSync(s);
        FinishKeepsInserted(s);
      case BackgroundFails => ErrorKeepsInv(s);
    }
  }

  lemma ErrorKeepsInv(s: State)
    requires Inv(s)
    ensures Inv(Apply(s, BackgroundFails))
  {
    hide RangesFrom, Total, Contiguous, EndOf;
    assert Group(Apply(s, BackgroundFails)) == Group(s);
  }

  predicate Run(states: seq<State>, steps: seq<Step>) {
    && |states| == |steps| + 1
    && states[0] == Init(states[0].base)
    && forall i :: 0 <= i < |steps| ==> Enabled(states[i], steps[i]) && states[i + 1] == Apply(states[i], steps[i])
  }

  lemma {:induction false} EveryRunKeepsInv(states: seq<State>, steps: seq<Step>, n: nat)
    requires Run(states, steps) && n < |states|
    ensures Inv(states[n])
  {
    hide Inv, Enabled, Apply;
    if n == 0 {
      InitInv(states[0].base);
    } else {
      EveryRunKeepsInv(states, steps, n - 1);
      assert Enabled(states[n - 1], steps[n - 1]);
      StepKeepsInv(states[n - 1], steps[n - 1]);
    }
  }

  // ----- what readers see -----

  lemma StepGrowsRanges(s: State, step: Step)
    requires Enabled(s, step)
    ensures s.ranges <= Apply(s, step).ranges && s.base == Apply(s, step).base
  {
    hide RangesFrom, GroupLength, Total, Group;
  }

  lemma {:induction false} RangesGrow(states: seq<State>, steps: seq<Step>, m: nat, n: nat)
    requires Run(states, steps) && m <= n < |states|
    ensures states[m].ranges <= states[n].ranges && states[m].base == states[n].base
    decreases n
  {
    hide Enabled, Apply;
    if m < n {
      RangesGrow(states, steps, m, n - 1);
      assert Enabled(states[n - 1], steps[n - 1]) && states[n] == Apply(states[n - 1], steps[n - 1]);
      StepGrowsRanges(states[n - 1], steps[n - 1]);
    }
  }

  /** A range never straddles the end of an earlier part of the list. */
  lemma RangesNeverStraddle(base: nat, rs: seq<Range>, a: nat, i: nat)
    requires Contiguous(base, rs) && a <= |rs| && i < |rs|
    ensures i < a ==> rs[i].first + rs[i].count <= EndOf(base, rs[..a]) + 1
    ensures i >= a ==> rs[i].first > EndOf(base, rs[..a])
  {
    if i < a {
      EndOfGrows(base, rs[..a], i + 1);
      EndOfOne(base, rs[..i], rs[i]);
      assert rs[..a][..i + 1] == rs[..i] + [rs[i]];
    } else {
      EndOfGrows(base, rs[..i], a);
      assert rs[..i][..a] == rs[..a];
    }
  }

  /** A snapshot taken at any moment of a run sees every batch wholly or not at all, at
      that moment and ever after. */
  lemma SnapshotsNeverSplitBatches(states: seq<State>, steps: seq<Step>, m: nat, n: nat, i: nat)
    requires Run(states, steps) && m <= n < |states| && i < |states[n].ranges|
    ensures
      var snapshot, r := states[m].lastSequence, states[n].ranges[i];
      r.first + r.count <= snapshot + 1 || r.first > snapshot
  {
    hide Run, Inv;
    EveryRunKeepsInv(states, steps, m);
    EveryRunKeepsInv(states, steps, n);
    RangesGrow(states, steps, m, n);
    InvRanges(states[m]);
    InvRanges(states[n]);
    var a := |states[m].acks|;
    assert states[n].ranges[..a] == states[m].ranges[..a];
    RangesNeverStraddle(states[n].base, states[n].ranges, a, i);
  }

  lemma InvRanges(s: State)
    requires Inv(s)
    ensures Contiguous(s.base, s.ranges) && s.lastSequence == EndOf(s.base, s.ranges[..|s.acks|]) && |s.acks| <= |s.ranges|
  {
  }

  /** Every writer is popped once, in the order it came. */
  lemma PoppedOnceInOrder(states: seq<State>, steps: seq<Step>, n: nat)
    requires Run(states, steps) && n < |states|
    ensures |states[n].acks| <= |states[n].entered|
    ensures states[n].entered == states[n].entered[..|states[n].acks|] + states[n].queue
  {
    hide Run;
    EveryRunKeepsInv(states, steps, n);
  }

  // ----- which numbers belong to whom -----

  lemma {:induction false} RangesFromCounts(first: nat, ws: seq<Writer>, i: nat)
    requires i < |ws|
    ensures RangesFrom(first, ws)[i].count == CountOf(ws[i])
  {
    var front := ws[..|ws| - 1];
    if i < |front| {
      RangesFromCounts(first, front, i);
      assert front[i] == ws[i];
    }
  }

  /** A writer of the running group has its range too. */
  lemma GroupCounts(s: State, i: nat)
    requires QueueOk(s) && RangesOk(s) && |s.acks| <= i < |s.ranges|
    ensures i < |s.entered| && s.ranges[i].count == CountOf(s.entered[i])
  {
    var j := i - |s.acks|;
    assert Group(s)[j] == s.queue[j] == s.entered[i];
    assert s.ranges[i] == s.ranges[|s.acks|..][j];
    RangesFromCounts(s.lastSequence + 1, Group(s), j);
  }

  /** Writer i was popped alone with an error before step n of the run. */
  predicate Refused(states: seq<State>, steps: seq<Step>, n: nat, i: nat) {
    exists m :: 0 <= m < n && m < |steps| && m < |states| && steps[m].Refuse? && |states[m].acks| == i
  }

  lemma RefusedNext(states: seq<State>, steps: seq<Step>, n: nat, i: nat)
    requires n < |steps| && n < |states|
    ensures Refused(states, steps, n + 1, i) <==> Refused(states, steps, n, i) || (steps[n].Refuse? && |states[n].acks| == i)
  {
  }

  /** A step adds ranges behind those there are: an empty one for a writer popped alone, and
      those of the group it begins. */
  lemma StepCounts(s: State, step: Step, i: nat)
    requires Inv(s) && Enabled(s, step) && i < |Apply(s, step).ranges|
    ensures |s.ranges| >= |s.acks| && |Apply(s, step).ranges| <= |Apply(s, step).entered|
    ensures i < |s.ranges| ==> i < |s.entered| && Apply(s, step).ranges[i] == s.ranges[i] && Apply(s, step).entered[i] == s.entered[i]
    ensures i < |s.ranges| ==> !(step.Refuse? && |s.acks| == i)
    ensures i >= |s.ranges| && step.Refuse? && |s.acks| == i ==> Apply(s, step).ranges[i].count == 0
    ensures i >= |s.ranges| && !(step.Refuse? && |s.acks| == i) ==> Apply(s, step).ranges[i].count == CountOf(Apply(s, step).entered[i])
  {
    hide Inv, RangesOk, RangesFrom, GroupLength, Total;
    var s' := Apply(s, step);
    StepKeepsInv(s, step);
    InvQueue(s);
    InvQueue(s');
    if i >= |s.ranges| && step.Begin? {
      GroupCounts(s', i);
    }
  }

  /** Every writer is given as many numbers as its batch has entries, whatever becomes of the
      group; only a writer refused for an earlier error is given none. */
  lemma {:induction false} EveryRunCounts(states: seq<State>, steps: seq<Step>, n: nat, i: nat)
    requires Run(states, steps) && n < |states| && i < |states[n].ranges|
    ensures i < |states[n].entered|
    ensures states[n].ranges[i].count == if Refused(states, steps, n, i) then 0 else CountOf(states[n].entered[i])
  {
    hide Inv, Enabled, Apply, Refused, CountOf;
    if n == 0 {
      NothingAtStart(states, steps);
    } else {
      var s, step := states[n - 1], steps[n - 1];
      EveryRunKeepsInv(states, steps, n - 1);
      assert Enabled(s, step);
      StepCounts(s, step, i);
      RefusedNext(states, steps, n - 1, i);
      if i < |s.ranges| {
        EveryRunCounts(states, steps, n - 1, i);
      } else {
        NotRefusedYet(states, steps, n - 1, i);
      }
    }
  }

  lemma NothingAtStart(states: seq<State>, steps: seq<Step>)
    requires Run(states, steps)
    ensures states[0].ranges == []
  {
  }

  /** Who has no range yet has not been popped. */
  lemma {:induction false} NotRefusedYet(states: seq<State>, steps: seq<Step>, n: nat, i: nat)
    requires Run(states, steps) && n < |states| && i >= |states[n].ranges|
    ensures !Refused(states, steps, n, i)
  {
    hide Enabled, Apply;
    forall m | 0 <= m < n && steps[m].Refuse? ensures |states[m].acks| != i {
      RangesGrow(states, steps, m + 1, n);
      assert Enabled(states[m], steps[m]) && states[m + 1] == Apply(states[m], steps[m]);
      EveryRunKeepsInv(states, steps, m);
      RefuseGivesRange(states[m]);
    }
  }

  lemma RefuseGivesRange(s: State)
    requires Inv(s) && Enabled(s, Refuse)
    ensures |Apply(s, Refuse).ranges| > |s.acks|
  {
  }

  predicate InRange(x: nat, r: Range) {
    r.first <= x < r.first + r.count
  }

  predicate Assigned(x: nat, rs: seq<Range>) {
    exists i :: 0 <= i < |rs| && InRange(x, rs[i])
  }

  /** Contiguous ranges leave no number out. */
  lemma {:induction false} NumberHasRange(base: nat, rs: seq<Range>, x: nat) returns (i: nat)
    requires Contiguous(base, rs) && base < x <= EndOf(base, rs)
    ensures i < |rs| && InRange(x, rs[i])
  {
    var front, last := rs[..|rs| - 1], rs[|rs| - 1];
    if x <= EndOf(base, front) {
      assert forall j :: 0 <= j < |front| ==> front[..j] == rs[..j];
      i := NumberHasRange(base, front, x);
    } else {
      i := |rs| - 1;
    }
  }

  /** At every moment of every run the sequence numbers handed out so far are parcelled out
      to the writers in the order they came: without gaps, without overlap, and to each as
      many as its batch has entries, whether its record could be logged or not; to a writer
      refused for an earlier error none. */
  lemma RunParcelsOutNumbers(states: seq<State>, steps: seq<Step>, n: nat)
    requires Run(states, steps) && n < |states|
    ensures
      var s := states[n];
      && |s.acks| <= |s.ranges| <= |s.entered|
      && (forall i, j :: 0 <= i < j < |s.ranges| ==> s.ranges[i].first + s.ranges[i].count <= s.ranges[j].first)
      && (forall x: nat :: s.base < x <= EndOf(s.base, s.ranges) ==> Assigned(x, s.ranges))
      && (forall i :: 0 <= i < |s.ranges| ==> s.ranges[i].count == if Refused(states, steps, n, i) then 0 else CountOf(s.entered[i]))
  {
    hide Run, Inv, Contiguous, EndOf, InRange, CountOf, Refused;
    var s := states[n];
    EveryRunKeepsInv(states, steps, n);
    InvRanges(s);
    InvQueue(s);
    forall i, j | 0 <= i < j < |s.ranges| ensures s.ranges[i].first + s.ranges[i].count <= s.ranges[j].first {
      RangesNeverStraddle(s.base, s.ranges, j, i);
      RangesNeverStraddle(s.base, s.ranges, j, j);
    }
    forall x: nat | s.base < x <= EndOf(s.base, s.ranges) ensures Assigned(x, s.ranges) {
      var i := NumberHasRange(s.base, s.ranges, x);
    }
    forall i | 0 <= i < |s.ranges| ensures s.ranges[i].count == if Refused(states, steps, n, i) then 0 else CountOf(s.entered[i]) {
      EveryRunCounts(states, steps, n, i);
    }
  }

  lemma InvQueue(s: State)
    requires Inv(s)
    ensures QueueOk(s) && RangesOk(s) && |s.acks| <= |s.ranges| <= |s.entered|
  {
  }
}
