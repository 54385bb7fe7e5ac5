/**
 * The playback node `AudioPlayer` (alsa_py_test.py:106-217), reduced to its
 * per-cycle step `work()`. The shared store and the audio device are outside
 * the model: each cycle receives the device's free space, the outcome of
 * reading the mode key and the outcome of the tailing read as inputs, and
 * reports what it did to the outside world as a sequence of effects.
 */
module Player {
  import opened Wrappers
  import Frames

  /** `task_state_default`: the mode assumed at start-up and on a failed mode read. */
  const TaskStateDefault: int := -1
  /** The mode in which audio is streamed (GO). */
  const Playing: int := 1
  /** `default_redis_timeout_ms`: the block of the first read of a session. */
  const DefaultRedisTimeoutMs: nat := 1
  /** `xread_count`: the most entries one tailing read may return. */
  const XreadCount: nat := 10

  /** Position of the tailing read: the sentinel "$" (only entries added from
      now on) or the id of the last entry consumed. */
  datatype Cursor = NewOnly | After(id: string)

  /** One stream entry, its payload already decoded into raw samples. */
  datatype Entry = Entry(id: string, samples: seq<real>)

  /** The tailing read either raises or returns the entries of the stream
      (none when the read times out without data). */
  datatype ReadResult = ReadFailed | ReadOk(entries: seq<Entry>)

  /** The arguments `xread` is called with: start position, `block`, `count`. */
  datatype ReadRequest = ReadRequest(from: Cursor, block: Option<nat>, count: nat)

  /** What one cycle does outside its own fields, in the order it does it. */
  datatype Effect =
    | NoticeEnded               // "Play audio ended"
    | NoticeStarted             // "Play audio started"
    | Silence(n: nat)           // n zero samples written to the device
    | Xread(req: ReadRequest)   // the tailing read issued
    | WarnLost                  // warning: lost connection
    | InfoRestored              // info: connection established
    | Samples(s: seq<real>)     // one buffer of normalised samples written

  /** The four fields `work()` reads and updates. */
  datatype State = State(taskState: int, cursor: Cursor, timeout: Option<nat>, connected: bool)

  /** What one cycle leaves behind: the new fields and the effects. */
  datatype Outcome = Outcome(next: State, effects: seq<Effect>)

  /** One cycle's inputs. */
  datatype Cycle = Cycle(free: nat, mode: Option<int>, read: ReadResult)

  /** The fields as `__init__` sets them. */
  function Initial(): State
  {
    State(TaskStateDefault, NewOnly, Some(DefaultRedisTimeoutMs), true)
  }

  /** The mode a cycle acts on: a failed or unparseable read of the mode key
      falls back to the default. */
  function ModeOf(reply: Option<int>): int
  {
    match reply
    case Some(m) => m
    case None => TaskStateDefault
  }

  /** Python truthiness of the timeout: `None` and 0 are false. */
  predicate Blocking(t: Option<nat>)
  {
    t.Some? && t.value != 0
  }

  /** The fields after the edge handling of a mode-1 cycle (alsa_py_test.py:177-182). */
  function Enter(s: State): State
  {
    if s.taskState != Playing
    then s.(taskState := Playing, cursor := NewOnly, timeout := Some(DefaultRedisTimeoutMs))
    else s
  }

  /** One call of `work()` as a function of the old fields and the cycle's inputs. */
  function Step(s: State, free: nat, mode: Option<int>, read: ReadResult): (o: Outcome)
    // the mode recorded is the mode read, with a failed read counting as the default
    ensures o.next.taskState == ModeOf(mode)
    // cursor and timeout move only in mode 1
    ensures ModeOf(mode) != Playing ==> o.next.cursor == s.cursor && o.next.timeout == s.timeout
    // the connection flag moves only with a read
    ensures ModeOf(mode) != Playing ==> o.next.connected == s.connected
    ensures ModeOf(mode) == Playing ==> o.next.connected == read.ReadOk?
  {
    var m := ModeOf(mode);
    if m != Playing then
      Outcome(s.(taskState := m),
              (if s.taskState != m then [NoticeEnded] else []) + [Silence(free)])
    else
      var s1 := Enter(s);
      var before :=
        (if s.taskState != Playing then [NoticeStarted] else [])
        + (if Blocking(s1.timeout) then [Silence(free)] else [])
        + [Xread(ReadRequest(s1.cursor, s1.timeout, XreadCount))];
      match read
      case ReadFailed =>
        Outcome(s1.(connected := false), before + (if s.connected then [WarnLost] else []))
      case ReadOk(entries) =>
        var logged := before + (if !s.connected then [InfoRestored] else []);
        if |entries| == 0 then
          Outcome(s1.(connected := true), logged)
        else
          var last := entries[|entries| - 1];
          Outcome(State(Playing, After(last.id), None, true),
                  logged + [Samples(Frames.Normalized(last.samples))])
  }

  function StepCycle(s: State, c: Cycle): Outcome
  {
    Step(s, c.free, c.mode, c.read)
  }

  /** A finite run of `work()` calls (the body of the endless `run()` loop). */
  function Run(s: State, cycles: seq<Cycle>): (o: Outcome)
    // after a run the recorded mode is the one read in its last cycle
    ensures o.next.taskState == if cycles == [] then s.taskState else ModeOf(cycles[|cycles| - 1].mode)
    decreases |cycles|
  {
    if cycles == [] then Outcome(s, [])
    else
      var o := StepCycle(s, cycles[0]);
      var rest := Run(o.next, cycles[1..]);
      Outcome(rest.next, o.effects + rest.effects)
  }

  /** The playback node's mutable state. */
  class AudioPlayer {
    var taskState: int
    var lastEntrySeen: Cursor
    var redisTimeoutMs: Option<nat>
    var redisConnected: bool

    function Fields(): State
      reads this
    {
      State(taskState, lastEntrySeen, redisTimeoutMs, redisConnected)
    }

    /** `__init__` after `parameter_initialization`. */
    constructor ()
      ensures Fields() == Initial()
    {
      taskState := TaskStateDefault;
      redisTimeoutMs := Some(DefaultRedisTimeoutMs);
      lastEntrySeen := NewOnly;
      redisConnected := true;
    }

    /** `work()`: one cycle of mode polling, tailing read and device write. */
    method Work(free: nat, mode: Option<int>, read: ReadResult) returns (effects: seq<Effect>)
      modifies this
      ensures Fields() == Step(old(Fields()), free, mode, read).next
      ensures effects == Step(old(Fields()), free, mode, read).effects
    {
      var taskStateNew := ModeOf(mode);
      // the state before the cycle and the outcome the contract compares against
      ghost var before := Fields();
      ghost var out := Step(before, free, mode, read);
      effects := [];
      if taskStateNew != Playing {
        if taskState != taskStateNew {
          effects := effects + [NoticeEnded];
        }
        taskState := taskStateNew;
        effects := effects + [Silence(free)];
      } else {
        if taskState != taskStateNew {
          lastEntrySeen := NewOnly;
          redisTimeoutMs := Some(DefaultRedisTimeoutMs);
          taskState := taskStateNew;
          effects := effects + [NoticeStarted];
        }
        if Blocking(redisTimeoutMs) {
          effects := effects + [Silence(free)];
        }
        effects := effects + [Xread(ReadRequest(lastEntrySeen, redisTimeoutMs, XreadCount))];
        match read {
          case ReadFailed =>
            if redisConnected {
              effects := effects + [WarnLost];
            }
            redisConnected := false;
            return;
          case ReadOk(entries) =>
            if !redisConnected {
              effects := effects + [InfoRestored];
            }
            redisConnected := true;
            if |entries| > 0 {
              redisTimeoutMs := None;
              var samples: seq<real> := [];
              var i := 0;
              while i < |entries|
                invariant 0 <= i <= |entries|
                invariant taskState == Playing && redisTimeoutMs == None && redisConnected
                invariant i > 0 ==> lastEntrySeen == After(entries[i - 1].id)
                invariant i > 0 ==> samples == entries[i - 1].samples
              {
                lastEntrySeen := After(entries[i].id);
                samples := entries[i].samples;
                i := i + 1;
              }
              var buffer := new real[|samples|](j requires 0 <= j < |samples| => samples[j]);
              assert buffer[..] == samples;
              Frames.NormalizeInPlace(buffer);
              effects := effects + [Samples(buffer[..])];
            }
        }
      }
    }
  }
}
