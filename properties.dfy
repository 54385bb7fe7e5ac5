/**
 * What one cycle of `work()`, and a run of cycles, promises: edge detection,
 * the session reset, cold-start blocking, edge-only connectivity logging and
 * the keep-last batch policy.
 */
module PlayerProperties {
  import opened Wrappers
  import opened Player
  import Frames

  /** The effects of `effs` that `keep` selects, in order. */
  function Only(effs: seq<Effect>, keep: Effect -> bool): seq<Effect>
  {
    if effs == [] then []
    else (if keep(effs[0]) then [effs[0]] else []) + Only(effs[1..], keep)
  }

  predicate IsDeviceWrite(e: Effect) { e.Silence? || e.Samples? }
  predicate IsSilence(e: Effect) { e.Silence? }
  predicate IsSampleWrite(e: Effect) { e.Samples? }
  predicate IsRead(e: Effect) { e.Xread? }
  /** A read whose `block` argument is truthy in Python. The timeout is only
      ever 1 or `None`, so the case `block=0`, which Redis reads as "block
      forever", does not arise. */
  predicate IsBlockingRead(e: Effect) { e.Xread? && Blocking(e.req.block) }

  predicate IsStarted(e: Effect) { e.NoticeStarted? }
  predicate IsEnded(e: Effect) { e.NoticeEnded? }
  predicate IsWarn(e: Effect) { e.WarnLost? }
  predicate IsInfo(e: Effect) { e.InfoRestored? }

  /** How many effects of `effs` `keep` selects. */
  function Count(effs: seq<Effect>, keep: Effect -> bool): nat
  {
    |Only(effs, keep)|
  }

  function Bit(b: bool): nat
  {
    if b then 1 else 0
  }

  /** Selecting effects distributes over concatenation. */
  lemma {:induction false} OnlyAppend(a: seq<Effect>, b: seq<Effect>, keep: Effect -> bool)
    ensures Only(a + b, keep) == Only(a, keep) + Only(b, keep)
  {
    if a == [] {
      assert a + b == b;
    } else {
      var c := a + b;
      assert c != [] && c[0] == a[0] && c[1..] == a[1..] + b;
      assert Only(c, keep) == Opt(keep(a[0]), a[0]) + Only(a[1..] + b, keep);
      OnlyAppend(a[1..], b, keep);
      assert Only(a, keep) == Opt(keep(a[0]), a[0]) + Only(a[1..], keep);
    }
  }

  /** The one-element effect list present when `c` holds. */
  function Opt(c: bool, e: Effect): seq<Effect>
  {
    if c then [e] else []
  }

  lemma OnlyOpt(c: bool, e: Effect, keep: Effect -> bool)
    ensures Only(Opt(c, e), keep) == Opt(c && keep(e), e)
  {
  }

  // ----- one cycle -----------------------------------------------------------

  /** The read a mode-1 cycle issues from the fields `s`. */
  function Request(s: State): Effect
  {
    Xread(ReadRequest(Enter(s).cursor, Enter(s).timeout, XreadCount))
  }

  /** The buffer a successful read with `entries` writes, if it writes one. */
  function LastBuffer(entries: seq<Entry>): seq<real>
  {
    if |entries| > 0 then Frames.Normalized(entries[|entries| - 1].samples) else []
  }

  /** Any selection of the effects of a cycle whose mode is not 1. */
  lemma IdleFilter(s: State, free: nat, mode: Option<int>, read: ReadResult, o: Outcome, keep: Effect -> bool)
    requires ModeOf(mode) != Playing
    requires o == Step(s, free, mode, read)
    ensures Only(o.effects, keep)
         == Opt(s.taskState != ModeOf(mode) && keep(NoticeEnded), NoticeEnded)
          + Opt(keep(Silence(free)), Silence(free))
  {
    var ended := Opt(s.taskState != ModeOf(mode), NoticeEnded);
    assert o.effects == ended + Opt(true, Silence(free));
    OnlyAppend(ended, Opt(true, Silence(free)), keep);
    OnlyOpt(s.taskState != ModeOf(mode), NoticeEnded, keep);
    OnlyOpt(true, Silence(free), keep);
  }

  /** The effects of a mode-1 cycle that follow its read. */
  function ReadEffects(s: State, read: ReadResult): seq<Effect>
  {
    match read
    case ReadFailed => Opt(s.connected, WarnLost)
    case ReadOk(entries) =>
      Opt(!s.connected, InfoRestored) + Opt(|entries| > 0, Samples(LastBuffer(entries)))
  }

  /** The effects of a mode-1 cycle in order: notice, silence, read, then the
      effects of the read's outcome. */
  lemma PlayingShape(s: State, free: nat, mode: Option<int>, read: ReadResult, o: Outcome)
    requires ModeOf(mode) == Playing
    requires o == Step(s, free, mode, read)
    ensures o.effects
         == Opt(s.taskState != Playing, NoticeStarted)
          + Opt(Blocking(Enter(s).timeout), Silence(free))
          + Opt(true, Request(s))
          + ReadEffects(s, read)
  {
  }

  lemma ReadEffectsFilter(s: State, read: ReadResult, keep: Effect -> bool)
    ensures Only(ReadEffects(s, read), keep) ==
      if read.ReadFailed? then
        Opt(s.connected && keep(WarnLost), WarnLost)
      else
        Opt(!s.connected && keep(InfoRestored), InfoRestored)
        + Opt(|read.entries| > 0 && keep(Samples(LastBuffer(read.entries))), Samples(LastBuffer(read.entries)))
  {
    if read.ReadFailed? {
      OnlyOpt(s.connected, WarnLost, keep);
    } else {
      var written := Samples(LastBuffer(read.entries));
      OnlyOpt(!s.connected, InfoRestored, keep);
      OnlyOpt(|read.entries| > 0, written, keep);
      OnlyAppend(Opt(!s.connected, InfoRestored), Opt(|read.entries| > 0, written), keep);
    }
  }

  /** Any selection of the effects of a mode-1 cycle, in order. */
  lemma PlayingFilter(s: State, free: nat, mode: Option<int>, read: ReadResult, o: Outcome, keep: Effect -> bool)
    requires ModeOf(mode) == Playing
    requires o == Step(s, free, mode, read)
    ensures Only(o.effects, keep)
         == Opt(s.taskState != Playing && keep(NoticeStarted), NoticeStarted)
          + Opt(Blocking(Enter(s).timeout) && keep(Silence(free)), Silence(free))
          + Opt(keep(Request(s)), Request(s))
          + Only(ReadEffects(s, read), keep)
  {
    var started := Opt(s.taskState != Playing, NoticeStarted);
    var silence := Opt(Blocking(Enter(s).timeout), Silence(free));
    var req := Opt(true, Request(s));
    PlayingShape(s, free, mode, read, o);
    OnlyOpt(s.taskState != Playing, NoticeStarted, keep);
    OnlyOpt(Blocking(Enter(s).timeout), Silence(free), keep);
    OnlyOpt(true, Request(s), keep);
    OnlyAppend(started + silence + req, ReadEffects(s, read), keep);
    OnlyAppend(started + silence, req, keep);
    OnlyAppend(started, silence, keep);
  }

  /** A mode key that cannot be read or parsed acts exactly like the default mode. */
  lemma ModeReadFailureIsDefault(s: State, free: nat, read: ReadResult)
    ensures Step(s, free, None, read) == Step(s, free, Some(TaskStateDefault), read)
  {
  }

  /** A cycle whose mode is not 1: record the mode, fill the free space with
      silence once, announce "ended" exactly when the mode changed, touch
      nothing else and issue no read. */
  lemma IdleCycle(s: State, free: nat, mode: Option<int>, read: ReadResult, o: Outcome)
    requires ModeOf(mode) != Playing
    requires o == Step(s, free, mode, read)
    ensures o.next.taskState == ModeOf(mode)
    ensures o.next.cursor == s.cursor && o.next.timeout == s.timeout && o.next.connected == s.connected
    ensures Only(o.effects, IsDeviceWrite) == [Silence(free)]
    ensures Only(o.effects, IsRead) == []
    ensures Count(o.effects, IsEnded) == Bit(s.taskState != ModeOf(mode))
    ensures Count(o.effects, IsStarted) == 0
    ensures Count(o.effects, IsWarn) == 0 && Count(o.effects, IsInfo) == 0
  {
    IdleFilter(s, free, mode, read, o, IsDeviceWrite);
    IdleFilter(s, free, mode, read, o, IsRead);
    IdleFilter(s, free, mode, read, o, IsEnded);
    IdleFilter(s, free, mode, read, o, IsStarted);
    IdleFilter(s, free, mode, read, o, IsWarn);
    IdleFilter(s, free, mode, read, o, IsInfo);
  }

  /** An edge into mode 1: the read starts from "$" with the default block
      whatever the cursor and timeout were, "started" is announced once and
      the free space is filled with silence first. */
  lemma SessionStart(s: State, free: nat, mode: Option<int>, read: ReadResult, o: Outcome)
    requires ModeOf(mode) == Playing && s.taskState != Playing
    requires o == Step(s, free, mode, read)
    ensures Only(o.effects, IsRead) == [Xread(ReadRequest(NewOnly, Some(DefaultRedisTimeoutMs), XreadCount))]
    ensures Only(o.effects, IsSilence) == [Silence(free)]
    ensures Count(o.effects, IsStarted) == 1 && Count(o.effects, IsEnded) == 0
    ensures o.next.taskState == Playing
  {
    PlayingFilter(s, free, mode, read, o, IsRead);
    ReadEffectsFilter(s, read, IsRead);
    PlayingFilter(s, free, mode, read, o, IsSilence);
    ReadEffectsFilter(s, read, IsSilence);
    PlayingFilter(s, free, mode, read, o, IsStarted);
    ReadEffectsFilter(s, read, IsStarted);
    PlayingFilter(s, free, mode, read, o, IsEnded);
    ReadEffectsFilter(s, read, IsEnded);
  }

  /** A mode-1 cycle that follows a mode-1 cycle: no reset and no notice; the
      read continues from the stored cursor with the stored timeout. */
  lemma SessionContinues(s: State, free: nat, mode: Option<int>, read: ReadResult, o: Outcome)
    requires ModeOf(mode) == Playing && s.taskState == Playing
    requires o == Step(s, free, mode, read)
    ensures Only(o.effects, IsRead) == [Xread(ReadRequest(s.cursor, s.timeout, XreadCount))]
    ensures Count(o.effects, IsStarted) == 0 && Count(o.effects, IsEnded) == 0
    ensures o.next.taskState == Playing
  {
    PlayingFilter(s, free, mode, read, o, IsRead);
    ReadEffectsFilter(s, read, IsRead);
    PlayingFilter(s, free, mode, read, o, IsStarted);
    ReadEffectsFilter(s, read, IsStarted);
    PlayingFilter(s, free, mode, read, o, IsEnded);
    ReadEffectsFilter(s, read, IsEnded);
  }

  /** In a mode-1 cycle the free space is filled with silence exactly when the
      read it issues may block, i.e. before the session's first data. */
  lemma SilenceWhileCold(s: State, free: nat, mode: Option<int>, read: ReadResult, o: Outcome, req: ReadRequest)
    requires ModeOf(mode) == Playing
    requires o == Step(s, free, mode, read)
    requires Only(o.effects, IsRead) == [Xread(req)]
    ensures req.count == XreadCount
    ensures Only(o.effects, IsSilence) == if Blocking(req.block) then [Silence(free)] else []
  {
    PlayingFilter(s, free, mode, read, o, IsRead);
    ReadEffectsFilter(s, read, IsRead);
    assert Only(o.effects, IsRead) == [Request(s)];
    assert Xread(req) == [Xread(req)][0] == Request(s);
    PlayingFilter(s, free, mode, read, o, IsSilence);
    ReadEffectsFilter(s, read, IsSilence);
  }

  /** A failed read: disconnected afterwards, a warning only on the loss edge,
      no sample write, and cursor and timeout as the edge handling left them:
      reset on an edge into mode 1, kept otherwise. */
  lemma ReadFailure(s: State, free: nat, mode: Option<int>, o: Outcome)
    requires ModeOf(mode) == Playing
    requires o == Step(s, free, mode, ReadFailed)
    ensures !o.next.connected
    ensures Count(o.effects, IsWarn) == Bit(s.connected)
    ensures Count(o.effects, IsInfo) == 0
    ensures Only(o.effects, IsSampleWrite) == []
    ensures o.next.taskState == Playing
    ensures o.next.cursor == (if s.taskState != Playing then NewOnly else s.cursor)
    ensures o.next.timeout == (if s.taskState != Playing then Some(DefaultRedisTimeoutMs) else s.timeout)
  {
    PlayingFilter(s, free, mode, ReadFailed, o, IsWarn);
    ReadEffectsFilter(s, ReadFailed, IsWarn);
    PlayingFilter(s, free, mode, ReadFailed, o, IsInfo);
    ReadEffectsFilter(s, ReadFailed, IsInfo);
    PlayingFilter(s, free, mode, ReadFailed, o, IsSampleWrite);
    ReadEffectsFilter(s, ReadFailed, IsSampleWrite);
  }

  /** A successful read: connected afterwards, the recovery notice only on the
      recovery edge and no warning. */
  lemma ReadSuccess(s: State, free: nat, mode: Option<int>, entries: seq<Entry>, o: Outcome)
    requires ModeOf(mode) == Playing
    requires o == Step(s, free, mode, ReadOk(entries))
    ensures o.next.connected
    ensures Count(o.effects, IsInfo) == Bit(!s.connected)
    ensures Count(o.effects, IsWarn) == 0
  {
    PlayingFilter(s, free, mode, ReadOk(entries), o, IsWarn);
    ReadEffectsFilter(s, ReadOk(entries), IsWarn);
    PlayingFilter(s, free, mode, ReadOk(entries), o, IsInfo);
    ReadEffectsFilter(s, ReadOk(entries), IsInfo);
  }

  /** An empty successful read changes nothing but the connection flag and
      writes no samples. */
  lemma EmptyRead(s: State, free: nat, mode: Option<int>, o: Outcome)
    requires ModeOf(mode) == Playing
    requires o == Step(s, free, mode, ReadOk([]))
    ensures o.next.taskState == Playing && o.next.connected
    ensures o.next.cursor == (if s.taskState != Playing then NewOnly else s.cursor)
    ensures o.next.timeout == (if s.taskState != Playing then Some(DefaultRedisTimeoutMs) else s.timeout)
    ensures Only(o.effects, IsSampleWrite) == []
  {
    PlayingFilter(s, free, mode, ReadOk([]), o, IsSampleWrite);
    ReadEffectsFilter(s, ReadOk([]), IsSampleWrite);
  }

  /** A non-empty read: the timeout is cleared, the cursor moves to the id of
      the last entry of the batch, and exactly one buffer is written, made
      from the last entry alone, sample by sample normalised and clipped. */
  lemma NonEmptyRead(s: State, free: nat, mode: Option<int>, entries: seq<Entry>, o: Outcome)
    requires ModeOf(mode) == Playing && |entries| > 0
    requires o == Step(s, free, mode, ReadOk(entries))
    ensures o.next.timeout == None && o.next.taskState == Playing && o.next.connected
    ensures o.next.cursor == After(entries[|entries| - 1].id)
    ensures Only(o.effects, IsSampleWrite) == [Samples(Frames.Normalized(entries[|entries| - 1].samples))]
    ensures var raw := entries[|entries| - 1].samples;
            var w := Only(o.effects, IsSampleWrite)[0].s;
            |w| == |raw|
            && forall i :: 0 <= i < |w| ==>
                 w[i] == Frames.NormalizeSample(raw[i]) && Frames.ClipLow <= w[i] <= Frames.ClipHigh
  {
    var raw := entries[|entries| - 1].samples;
    PlayingFilter(s, free, mode, ReadOk(entries), o, IsSampleWrite);
    ReadEffectsFilter(s, ReadOk(entries), IsSampleWrite);
    forall i | 0 <= i < |raw|
      ensures Frames.Normalized(raw)[i] == Frames.NormalizeSample(raw[i])
    {
      Frames.NormalizedAt(raw, i);
    }
  }

  /** In mode 1 after the session's first data, a cycle whose read fails or
      returns no entries writes nothing to the device. */
  lemma NothingWrittenWithoutData(s: State, free: nat, mode: Option<int>, read: ReadResult, o: Outcome)
    requires ModeOf(mode) == Playing && s.taskState == Playing && s.timeout == None
    requires read == ReadFailed || read == ReadOk([])
    requires o == Step(s, free, mode, read)
    ensures Only(o.effects, IsDeviceWrite) == []
  {
    PlayingFilter(s, free, mode, read, o, IsDeviceWrite);
    ReadEffectsFilter(s, read, IsDeviceWrite);
  }

  // ----- runs of cycles ------------------------------------------------------

  /** Connectivity is logged only on its edges: warnings and recovery notices
      alternate, so over any run they balance up to the first and last state. */
  lemma {:induction false} ConnectivityLogsBalance(s: State, cycles: seq<Cycle>, o: Outcome)
    requires o == Run(s, cycles)
    ensures Count(o.effects, IsWarn) + Bit(o.next.connected)
         == Count(o.effects, IsInfo) + Bit(s.connected)
    decreases |cycles|
  {
    if cycles != [] {
      var c := cycles[0];
      var first := StepCycle(s, c);
      ConnectivityLogsBalance(first.next, cycles[1..], Run(first.next, cycles[1..]));
      OnlyAppend(first.effects, Run(first.next, cycles[1..]).effects, IsWarn);
      OnlyAppend(first.effects, Run(first.next, cycles[1..]).effects, IsInfo);
      if ModeOf(c.mode) != Playing {
        IdleCycle(s, c.free, c.mode, c.read, first);
      } else if c.read.ReadFailed? {
        ReadFailure(s, c.free, c.mode, first);
      } else {
        ReadSuccess(s, c.free, c.mode, c.read.entries, first);
      }
    }
  }

  /** A cycle in which a read succeeds. */
  predicate Succeeds(c: Cycle)
  {
    ModeOf(c.mode) == Playing && c.read.ReadOk?
  }

  /** A cycle in which a read fails. */
  predicate Fails(c: Cycle)
  {
    ModeOf(c.mode) == Playing && c.read.ReadFailed?
  }

  /** Over a run with no successful read (idle cycles may interleave), at most
      one warning is logged, and none if the connection was already lost. */
  lemma {:induction false} OneWarningPerOutage(s: State, cycles: seq<Cycle>, o: Outcome)
    requires forall i :: 0 <= i < |cycles| ==> !Succeeds(cycles[i])
    requires o == Run(s, cycles)
    ensures Count(o.effects, IsInfo) == 0
    ensures Count(o.effects, IsWarn) <= Bit(s.connected)
    decreases |cycles|
  {
    if cycles != [] {
      var c := cycles[0];
      var first := StepCycle(s, c);
      var rest := Run(first.next, cycles[1..]);
      OneWarningPerOutage(first.next, cycles[1..], rest);
      OnlyAppend(first.effects, Run(first.next, cycles[1..]).effects, IsWarn);
      OnlyAppend(first.effects, Run(first.next, cycles[1..]).effects, IsInfo);
      if ModeOf(c.mode) != Playing {
        IdleCycle(s, c.free, c.mode, c.read, first);
      } else {
        ReadFailure(s, c.free, c.mode, first);
      }
    }
    ConnectivityLogsBalance(s, cycles, o);
  }

  /** Over a run with no failed read, at most one recovery notice is logged,
      and none if the connection was up to begin with. */
  lemma {:induction false} OneRecoveryPerReconnection(s: State, cycles: seq<Cycle>, o: Outcome)
    requires forall i :: 0 <= i < |cycles| ==> !Fails(cycles[i])
    requires o == Run(s, cycles)
    ensures Count(o.effects, IsWarn) == 0
    ensures Count(o.effects, IsInfo) <= Bit(!s.connected)
    decreases |cycles|
  {
    if cycles != [] {
      var c := cycles[0];
      var first := StepCycle(s, c);
      var rest := Run(first.next, cycles[1..]);
      OneRecoveryPerReconnection(first.next, cycles[1..], rest);
      OnlyAppend(first.effects, Run(first.next, cycles[1..]).effects, IsWarn);
      OnlyAppend(first.effects, Run(first.next, cycles[1..]).effects, IsInfo);
      if ModeOf(c.mode) != Playing {
        IdleCycle(s, c.free, c.mode, c.read, first);
      } else {
        ReadSuccess(s, c.free, c.mode, c.read.entries, first);
      }
    }
    ConnectivityLogsBalance(s, cycles, o);
  }

  /** Once a session has had its first data the timeout stays cleared for the
      rest of the session, whatever the later reads return: no read blocks,
      no silence is written and no "started" or "ended" notice fires. */
  lemma {:induction false} TimeoutStaysCleared(s: State, cycles: seq<Cycle>, o: Outcome)
    requires s.taskState == Playing && s.timeout == None
    requires forall i :: 0 <= i < |cycles| ==> ModeOf(cycles[i].mode) == Playing
    requires o == Run(s, cycles)
    ensures o.next.taskState == Playing && o.next.timeout == None
    ensures Only(o.effects, IsSilence) == []
    ensures Only(o.effects, IsBlockingRead) == []
    ensures Count(o.effects, IsStarted) == 0 && Count(o.effects, IsEnded) == 0
    decreases |cycles|
  {
    if cycles != [] {
      var c := cycles[0];
      var first := StepCycle(s, c);
      var rest := Run(first.next, cycles[1..]);
      assert first.next.timeout == None && first.next.taskState == Playing by {
        if c.read.ReadOk? && |c.read.entries| > 0 {
          NonEmptyRead(s, c.free, c.mode, c.read.entries, first);
        }
      }
      assert Only(first.effects, IsSilence) == [] && Only(first.effects, IsBlockingRead) == []
          && Count(first.effects, IsStarted) == 0 && Count(first.effects, IsEnded) == 0 by {
        SessionContinues(s, c.free, c.mode, c.read, first);
        PlayingFilter(s, c.free, c.mode, c.read, first, IsSilence);
        ReadEffectsFilter(s, c.read, IsSilence);
        PlayingFilter(s, c.free, c.mode, c.read, first, IsBlockingRead);
        ReadEffectsFilter(s, c.read, IsBlockingRead);
      }
      TimeoutStaysCleared(first.next, cycles[1..], rest);
      OnlyAppend(first.effects, rest.effects, IsSilence);
      OnlyAppend(first.effects, rest.effects, IsBlockingRead);
      OnlyAppend(first.effects, rest.effects, IsStarted);
      OnlyAppend(first.effects, rest.effects, IsEnded);
    }
  }

  /** A run of cycles none of which is in mode 1 writes one silence buffer per
      cycle, each sized to that cycle's free space, and issues no read. */
  lemma {:induction false} IdleRunWritesSilence(s: State, cycles: seq<Cycle>, o: Outcome)
    requires forall i :: 0 <= i < |cycles| ==> ModeOf(cycles[i].mode) != Playing
    requires o == Run(s, cycles)
    ensures var w := Only(o.effects, IsDeviceWrite);
            |w| == |cycles| && forall i :: 0 <= i < |w| ==> w[i] == Silence(cycles[i].free)
    ensures Only(o.effects, IsRead) == []
    ensures o.next.cursor == s.cursor && o.next.timeout == s.timeout && o.next.connected == s.connected
    decreases |cycles|
  {
    if cycles != [] {
      var c := cycles[0];
      var first := StepCycle(s, c);
      var rest := Run(first.next, cycles[1..]);
      assert o.next == rest.next && o.effects == first.effects + rest.effects;
      assert Only(first.effects, IsDeviceWrite) == [Silence(c.free)] && Only(first.effects, IsRead) == []
          && first.next.cursor == s.cursor && first.next.timeout == s.timeout
          && first.next.connected == s.connected by {
        IdleCycle(s, c.free, c.mode, c.read, first);
      }
      IdleRunWritesSilence(first.next, cycles[1..], rest);
      OnlyAppend(first.effects, rest.effects, IsDeviceWrite);
      OnlyAppend(first.effects, rest.effects, IsRead);
      SilencePerCycle(Only(o.effects, IsDeviceWrite), Only(rest.effects, IsDeviceWrite), cycles);
    }
  }

  lemma SilencePerCycle(w: seq<Effect>, wr: seq<Effect>, cycles: seq<Cycle>)
    requires |cycles| > 0 && w == [Silence(cycles[0].free)] + wr
    requires |wr| == |cycles| - 1 && forall i :: 0 <= i < |wr| ==> wr[i] == Silence(cycles[1..][i].free)
    ensures |w| == |cycles| && forall i :: 0 <= i < |w| ==> w[i] == Silence(cycles[i].free)
  {
    forall i | 0 <= i < |w|
      ensures w[i] == Silence(cycles[i].free)
    {
      if i > 0 {
        assert w[i] == wr[i - 1] && cycles[i] == cycles[1..][i - 1];
      }
    }
  }

  // ----- scenarios -----------------------------------------------------------

  /** The effects of each cycle of a run, one sequence per cycle. */
  function Trace(s: State, cycles: seq<Cycle>): (t: seq<seq<Effect>>)
    ensures |t| == |cycles|
    decreases |cycles|
  {
    if cycles == [] then []
    else
      var o := StepCycle(s, cycles[0]);
      [o.effects] + Trace(o.next, cycles[1..])
  }

  /** Modes -1, -1, 1, 1, 0 from start-up: "started" fires only at cycle 2 and
      "ended" only at cycle 4, whatever the reads return. */
  lemma EdgesOfModeSequence(cycles: seq<Cycle>)
    requires |cycles| == 5
    requires cycles[0].mode == Some(-1) && cycles[1].mode == Some(-1)
    requires cycles[2].mode == Some(1) && cycles[3].mode == Some(1) && cycles[4].mode == Some(0)
    ensures var t := Trace(Initial(), cycles);
            forall i :: 0 <= i < 5 ==>
              (Count(t[i], IsStarted) > 0 <==> i == 2) && (Count(t[i], IsEnded) > 0 <==> i == 4)
  {
    var s0 := Initial();
    var o0 := StepCycle(s0, cycles[0]);
    var o1 := StepCycle(o0.next, cycles[1]);
    var o2 := StepCycle(o1.next, cycles[2]);
    var o3 := StepCycle(o2.next, cycles[3]);
    var o4 := StepCycle(o3.next, cycles[4]);
    assert Count(o0.effects, IsStarted) == 0 && Count(o0.effects, IsEnded) == 0 && o0.next.taskState == -1 by {
      IdleCycle(s0, cycles[0].free, cycles[0].mode, cycles[0].read, o0);
    }
    assert Count(o1.effects, IsStarted) == 0 && Count(o1.effects, IsEnded) == 0 && o1.next.taskState == -1 by {
      IdleCycle(o0.next, cycles[1].free, cycles[1].mode, cycles[1].read, o1);
    }
    assert Count(o2.effects, IsStarted) == 1 && Count(o2.effects, IsEnded) == 0 && o2.next.taskState == 1 by {
      SessionStart(o1.next, cycles[2].free, cycles[2].mode, cycles[2].read, o2);
    }
    assert Count(o3.effects, IsStarted) == 0 && Count(o3.effects, IsEnded) == 0 && o3.next.taskState == 1 by {
      SessionContinues(o2.next, cycles[3].free, cycles[3].mode, cycles[3].read, o3);
    }
    assert Count(o4.effects, IsStarted) == 0 && Count(o4.effects, IsEnded) == 1 by {
      IdleCycle(o3.next, cycles[4].free, cycles[4].mode, cycles[4].read, o4);
    }
    TraceOfFive(s0, cycles);
    var t := Trace(s0, cycles);
    assert t[0] == o0.effects && t[1] == o1.effects && t[2] == o2.effects;
    assert t[3] == o3.effects && t[4] == o4.effects;
  }

  /** A run of five cycles, unfolded into the effects of each. */
  lemma TraceOfFive(s: State, cycles: seq<Cycle>)
    requires |cycles| == 5
    ensures var o0 := StepCycle(s, cycles[0]);
            var o1 := StepCycle(o0.next, cycles[1]);
            var o2 := StepCycle(o1.next, cycles[2]);
            var o3 := StepCycle(o2.next, cycles[3]);
            var o4 := StepCycle(o3.next, cycles[4]);
            Trace(s, cycles) == [o0.effects, o1.effects, o2.effects, o3.effects, o4.effects]
  {
    var o0 := StepCycle(s, cycles[0]);
    var o1 := StepCycle(o0.next, cycles[1]);
    var o2 := StepCycle(o1.next, cycles[2]);
    var o3 := StepCycle(o2.next, cycles[3]);
    var o4 := StepCycle(o3.next, cycles[4]);
    assert cycles[1..][1..] == cycles[2..] && cycles[2..][1..] == cycles[3..];
    assert cycles[3..][1..] == cycles[4..] && cycles[4..][1..] == [];
    assert Trace(o3.next, cycles[4..]) == [o4.effects];
    assert Trace(o2.next, cycles[3..]) == [o3.effects, o4.effects];
    assert Trace(o1.next, cycles[2..]) == [o2.effects, o3.effects, o4.effects];
    assert Trace(o0.next, cycles[1..]) == [o1.effects, o2.effects, o3.effects, o4.effects];
  }

  /** A batch of two entries holding -100000 and 25000: the source keeps only
      the last entry, so the one buffer written is [0.5] and the cursor moves to
      the second id; joining the batch would have given [-1.0, 0.5]. */
  lemma KeepLastOfBatch(s: State, free: nat, id1: string, id2: string, o: Outcome)
    requires o == Step(s, free, Some(Playing), ReadOk([Entry(id1, [-100000.0]), Entry(id2, [25000.0])]))
    ensures Only(o.effects, IsSampleWrite) == [Samples([0.5])]
    ensures o.next.cursor == After(id2)
    ensures Frames.Normalized([-100000.0, 25000.0]) == [-1.0, 0.5]
  {
    var entries := [Entry(id1, [-100000.0]), Entry(id2, [25000.0])];
    NonEmptyRead(s, free, Some(Playing), entries, o);
    assert Frames.Normalized([25000.0]) == [0.5] by {
      Frames.NormalizedAt([25000.0], 0);
    }
    Frames.NormalizedAt([-100000.0, 25000.0], 0);
    Frames.NormalizedAt([-100000.0, 25000.0], 1);
  }
}
