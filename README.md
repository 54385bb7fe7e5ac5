# AudioPlayer playback step, modelled in Dafny

This project models the real-time playback node `AudioPlayer` of `alsa_py_test.py`.
Each call of `work()`:

- reads the shared mode key `task_state_current`;
- compares the mode read with the mode recorded: it announces "started" on an edge into the GO mode (1) and "ended" on any change to a mode other than 1;
- on entering GO, resets the stream cursor and the blocking timeout;
- in mode 1, tails the `pred_audio` stream;
- writes silence, the normalised samples of the last entry of the batch, or both (silence first, on the first data cycle of a session) to the audio device, or nothing (a mode-1 cycle after the session's first data whose read fails or returns no entries);
- logs only when connectivity to the store changes.

The store and the device are outside the model. Each cycle takes three inputs:

- the device's free space;
- the mode read, as an `Option<int>` where `None` stands for any failure;
- the tailing read, either `ReadFailed` or `ReadOk(entries)`.

The cycle reports what it did as a sequence of `Effect`s, in the order the code does them:

- the "ended" and "started" notices;
- silence writes;
- the `xread` request with its cursor, block and count;
- the warning and the recovery notice;
- the sample write.

Files:

- `wrappers.dfy`: `Option`, used for Python's `None`.
- `frames.dfy` (module `Frames`): division by `norm_factor` (50000) and clipping to [-1, 1], as a pure function. It also holds the in-place array loop that performs it.
- `player.dfy` (module `Player`):
  - three constants of `parameter_initialization`: `task_state_default` (-1), `default_redis_timeout_ms` (1) and `xread_count` (10); `norm_factor` (50000) lives in `frames.dfy`, and the audio-format and stream-name settings are not modelled;
  - the class `AudioPlayer`, whose four fields `taskState`, `lastEntrySeen`, `redisTimeoutMs` and `redisConnected` are the ones `work()` mutates;
  - its method `Work`, with the loop over the batch;
  - the pure function `Step` that specifies `Work`;
  - `Run`, a finite sequence of cycles.
- `properties.dfy` (module `PlayerProperties`): the contracts of one cycle and of runs of cycles.

Three behaviours of the code are easy to misread; the model follows the code:

- Batches: only the last entry of a batch is written, while the cursor advances over every entry. Entries with -100000 and 25000 give one buffer `[0.5]`, not `[-1.0, 0.5]` (`KeepLastOfBatch`).
- "Ended" notice: it fires on any change between modes other than 1 (for example -1 to 0), not only when leaving mode 1.
- Empty reads: once the first data of a session has cleared the timeout, a mode-1 cycle writes no silence, even when the read returns nothing.

## Model

| member | source | states |
|---|---|---|
| `Frames.Clip` | alsa_py_test.py:211 | the result lies in [-1, 1], equals the input when the input is already in range, and is the point of the range nearest to the input |
| `Frames.NormalizeSample` | alsa_py_test.py:210-211 | one output sample is in [-1, 1]; it is exactly raw/50000 when abs(raw) <= 50000; it is 1 at or above 50000 and -1 at or below -50000 |
| `Frames.Normalized` | alsa_py_test.py:210-212 | the written buffer has as many samples as the entry and every one lies in [-1, 1] |
| `Frames.NormalizedAt` | alsa_py_test.py:210-211 | sample k of the written buffer is sample k of the entry, normalised and clipped |
| `Frames.NormalizeMonotone` | alsa_py_test.py:210-211 | normalising preserves the order of samples |
| `Frames.NormalizedOfQuiet` | alsa_py_test.py:210-211 | when no raw sample exceeds the divisor in magnitude, nothing is clipped and every output sample times the divisor gives back the raw sample |
| `Frames.NormalizeInPlace` | alsa_py_test.py:210-212 | dividing and clipping in place leaves the array equal to the normalised input |
| `Player.Step` | alsa_py_test.py:161-213 | one cycle's new fields and effects; its own contract: the recorded mode is the mode read (the default on a failed read), cursor and timeout move only in mode 1, and the connection flag moves only with a read and then reflects its success |
| `Player.Run` | alsa_py_test.py:84-86 | a finite run of cycles; after it the recorded mode is the one read in its last cycle |
| `Player.AudioPlayer.constructor` | alsa_py_test.py:110-136 | the fields start at mode -1, cursor "$", timeout 1 and connected |
| `Player.AudioPlayer.Work` | alsa_py_test.py:161-213 | the new fields and the effects are those of `Step` on the old fields, including the batch loop (cursor at each entry in turn, samples of the last) and the in-place normalisation |
| `PlayerProperties.ModeReadFailureIsDefault` | alsa_py_test.py:166-169 | a missing or unparseable mode key behaves exactly like mode -1 and never escapes the cycle |
| `PlayerProperties.IdleCycle` | alsa_py_test.py:171-175 | with mode not 1: the mode is recorded; exactly one device write happens, silence of the free-space length; "ended" fires iff the mode changed; no read is issued; cursor, timeout and connection flag are unchanged |
| `PlayerProperties.SessionStart` | alsa_py_test.py:176-191 | on an edge into mode 1 the read starts from "$" with block 1 and count 10, whatever the prior cursor and timeout; "started" fires once; the free space is filled with silence |
| `PlayerProperties.SessionContinues` | alsa_py_test.py:176-191 | in mode 1 after mode 1 nothing is reset, no "started" or "ended" notice fires and the read uses the stored cursor and timeout with count 10 |
| `PlayerProperties.SilenceWhileCold` | alsa_py_test.py:184-191 | in a mode-1 cycle silence of the free-space length is written iff the block of the read issued is set and non-zero; the read asks for 10 entries |
| `PlayerProperties.ReadFailure` | alsa_py_test.py:188-196 | a failed read leaves the node disconnected; a warning is logged iff it was connected; no recovery notice and no sample write; cursor and timeout stay as the edge handling left them: "$" and 1 after an edge into mode 1, the stored values otherwise |
| `PlayerProperties.ReadSuccess` | alsa_py_test.py:197-200 | a successful read leaves the node connected; the recovery notice is logged iff it was disconnected; no warning |
| `PlayerProperties.EmptyRead` | alsa_py_test.py:197-203 | an empty successful read changes nothing but the connection flag beyond the edge handling (cursor "$" and timeout 1 after an edge into mode 1, the stored values otherwise) and writes no samples |
| `PlayerProperties.NonEmptyRead` | alsa_py_test.py:203-213 | a non-empty read clears the timeout and moves the cursor to the id of the last entry; exactly one buffer is written, made from the last entry only, of the same length, each sample normalised, clipped and in [-1, 1] |
| `PlayerProperties.ConnectivityLogsBalance` | alsa_py_test.py:188-200 | over any run, warnings plus final connection equal recovery notices plus initial connection: loss and recovery are logged only on their edges and alternate |
| `PlayerProperties.OneWarningPerOutage` | alsa_py_test.py:192-196 | over a run without a successful read, at most one warning is logged (none if already disconnected) and no recovery notice |
| `PlayerProperties.OneRecoveryPerReconnection` | alsa_py_test.py:197-200 | over a run without a failed read, at most one recovery notice is logged (none if already connected) and no warning |
| `PlayerProperties.TimeoutStaysCleared` | alsa_py_test.py:184-204 | once the timeout is cleared in mode 1, it stays cleared for every later mode-1 cycle whatever the reads return: no read blocks, no silence is written, no "started" or "ended" notice fires |
| `PlayerProperties.NothingWrittenWithoutData` | alsa_py_test.py:184-203 | in mode 1 after the session's first data, a cycle whose read fails or returns no entries writes nothing to the device |
| `PlayerProperties.IdleRunWritesSilence` | alsa_py_test.py:171-175 | a run of cycles in modes other than 1 writes one silence buffer per cycle, each sized to that cycle's free space, issues no read and keeps cursor, timeout and connection flag |
| `PlayerProperties.EdgesOfModeSequence` | alsa_py_test.py:171-182 | for modes -1, -1, 1, 1, 0 from start-up, "started" fires only at cycle 2 and "ended" only at cycle 4 |
| `PlayerProperties.KeepLastOfBatch` | alsa_py_test.py:203-213 | for a batch holding -100000 then 25000, the one buffer written is [0.5] and the cursor moves to the second id; concatenation would have given [-1.0, 0.5] |

## Left out

- Bootstrap of `StandaloneBrandNode` (argument parsing, the Redis connection and the exit on failure, logging setup, SIGINT wiring, `terminate`, `cleanup`): process and I/O plumbing around the step.
- PyAudio device enumeration, opening and closing (`initialise_audio_player`, `close_audio_player`): foreign library calls. The device appears only as the free-space input and the write effects.
- The endless `run()` loop: modelled as finite runs of cycles (`Run`, `Trace`).
- Mode text parsing: `int(...decode())` of the key's bytes is not modelled. Its outcome is the input `Option<int>`, and `None` stands for every exception (missing key, non-integer text, store failure).
- float32: the byte decoding with `np.frombuffer` and `tobytes`, float rounding in the division, and `chunk_size = int(16000 * 0.01)`. NaN samples are not modelled either: `np.clip` passes NaN through, so the real buffer can hold samples outside [-1, 1], while a `real` cannot be NaN. Payloads are taken as decoded `seq<real>` and the arithmetic is exact.
- Reply shape of `xread`: a reply naming the stream with zero entries is not modelled (the code would fail on the unset `audio_samples`). `ReadOk([])` stands for the empty reply.
- Entry ids are opaque strings. Their order is the store's business, so cursor monotonicity is not stated.
- The audio-format and stream settings `input_stream`, `audio_fs`, `interval`, `audio_buffer_scaler` and `n_channels` only configure the device and the stream key; they are not modelled.
- The difference between `print` and `logging` is not modelled. Notices and logs are effects in order.
- alsa_test.c is not part of this model. It is a standalone scratch client with no contract of its own.
