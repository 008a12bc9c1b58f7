# OBS-to-XAir scene bridge, modelled in Dafny

The bridge listens to OBS (the production tool). When the program scene changes, it mutes, unmutes or toggles strips of an XAir mixer, as the user's `scene_mapping` says. This project models the parts of that bridge that make decisions:

- **Scene dispatch** (`Bridge.Observer.OnCurrentProgramSceneChanged` and the three handlers). An unmapped scene, or a scene mapped to an empty table, does nothing. Otherwise the action keys are walked in declared order, and within a key its channel indices in declared order. Each 1-based index `i` addresses strip `i - 1`. `mute` sets the strip's flag, `unmute` clears it, and `toggle` flips it as it stands at that moment. A key outside these three is skipped. The method works in place on an `array<bool>` of per-strip mute flags. It is proved equal to `SceneDispatch.Dispatch`, a function on `seq<bool>`. The loops carry, as invariants, the list of calls made so far and the flags after them.
- **The meaning of a dispatch** (module `SceneDispatch`). `Steps` flattens a scene's action set into the handler calls it makes, in order. `Run` applies those calls one after the other. Both are defined through their prefixes (`StepsFirst`, the calls of the first `k` keys, and `RunFirst`, the flags after the first `n` calls). One call (`Actions.ApplyStep`) updates exactly the addressed strip. A call that addresses no strip would change nothing, but a scene within range never makes one (`StepsInRange`). The lemmas prove what the observer promises:
  - unmapped and inert scenes change nothing;
  - unknown keys are skipped;
  - strips that no recognised key declares keep their flag;
  - the last call to address a strip decides its flag, so `mute` and `unmute` stick unless something later touches the strip;
  - a strip that is only toggled, an even number of times, returns to its flag;
  - declared order is execution order.
- **Stop signal** (`Bridge.Observer.OnExitStarted`). The closing notification sets a one-shot stop event. Setting it again changes nothing.
- **Config search** (module `ConfigLoad`). Four candidate paths are tried in a fixed order: the path as given, under the working directory, under the install directory, and under `~/.config/xair-obs`. The first regular file wins. If none is a file, loading fails with not-found. If the file does not decode, loading fails with a decode error that names the resolved path.

Files: `actions.dfy` (action kinds and the effect of one handler call), `dispatch.dfy` (the dispatch semantics and its lemmas), `observer.dfy` (the mixer, the stop event and the observer classes), `config.dfy` (path search and loading).

## Model

| member | source | states |
|---|---|---|
| `Actions.ParseAction` | __main__.py:88-95 | A key is recognised exactly when it is `mute`, `unmute` or `toggle`. Any other key becomes an inert `Unknown` kind. The key can always be read back unchanged. |
| `Actions.ParseKeyOf` | __main__.py:88-92 | Parsing the key of a kind gives that kind back: recognised keys and the three kinds correspond one to one. |
| `Actions.StripRef` | __main__.py:97 | Declared index `i` addresses strip `i - 1`: adding one gives the index back, and the strip reference is non-negative exactly when the index is at least 1. |
| `Actions.Effect` | __main__.py:99-106 | `mute` leaves a strip muted and `unmute` leaves it unmuted, whatever its flag was. `toggle` always leaves the opposite of the flag it found. |
| `Actions.EffectTwice` | __main__.py:99-106 | Applying an operation twice: `mute` and `unmute` are idempotent, and a second `toggle` undoes the first. |
| `Actions.ApplyStep` | __main__.py:97-106 | One handler call keeps the number of strips. A call that addresses strip `i - 1` with a handler gives that strip the handler's effect on its current flag. Every other strip keeps its flag. A call that addresses no strip of the mixer, which a scene within range never makes, changes nothing. |
| `Bridge.Observer.constructor` | __main__.py:48-53 | The observer keeps the mixer, the stop event and the scene mapping it is given. |
| `Bridge.Observer.OnCurrentProgramSceneChanged` | __main__.py:72-97 | After the call, the strips' mute flags are `Dispatch` of the flags before the call. An unmapped scene, or one mapped to an empty table, leaves the array unchanged. The nested loops carry, as invariants, the calls made so far (`StepsFirst` of the keys handled, plus the first indices of the current key) and the flags after them. |
| `Bridge.Observer.MuteHandler` | __main__.py:99-100 | Strip `r` becomes muted; every other strip is unchanged. |
| `Bridge.Observer.UnmuteHandler` | __main__.py:102-103 | Strip `r` becomes unmuted; every other strip is unchanged. |
| `Bridge.Observer.ToggleHandler` | __main__.py:105-106 | Strip `r` gets the negation of its flag at the moment of the call; every other strip is unchanged. |
| `Bridge.Observer.OnExitStarted` | __main__.py:108-110 | The stop event is set afterwards. If it was already set, nothing changes, so a repeated call is harmless. |
| `Bridge.StopEvent.Set` | __main__.py:110 | The event is set; setting a set event leaves it unchanged. |
| `SceneDispatch.Dispatch` | __main__.py:85-97 | A scene change keeps the number of strips. What it does to each strip is given by the lemmas below. |
| `SceneDispatch.Steps` | __main__.py:94-97 | The calls that walking a scene's keys and indices makes. Every one of them carries one of the three handlers. |
| `SceneDispatch.Run` | __main__.py:96-106 | Applying a sequence of calls one after the other keeps the number of strips. A strip that no call addresses keeps its flag. |
| `SceneDispatch.StepsFirstAgree` | __main__.py:94-97 | The calls made for the first `n` keys depend on those keys alone. |
| `SceneDispatch.StepsFirstAppend` | __main__.py:94-97 | Walking the keys of `a` and then the first `m` keys of `b` makes the calls of `a` followed by those of the first `m` keys of `b`. |
| `SceneDispatch.StepsAppend` | __main__.py:94-97 | The calls of two consecutive runs of keys are the calls of the first followed by those of the second. Keys are handled strictly in declared order. |
| `SceneDispatch.StepsFirstGrow` | __main__.py:94-97 | Handling more keys only appends calls: the calls of the first `k` keys are a prefix of those of the first `k'` keys. |
| `SceneDispatch.StepDeclaredBetween` | __main__.py:88-97 | A call made while keys `lo` to `hi - 1` are handled carries a recognised operation and an index that one of those keys declares under a handler name. |
| `SceneDispatch.StepIndexDeclared` | __main__.py:94-97 | Every call of a scene carries an index that some recognised key of the scene declares. |
| `SceneDispatch.StepsInRange` | __main__.py:94-97 | If every index under a recognised key lies in 1..n, every call addresses one of the n strips with a handler, so a dispatch never makes a call that addresses no strip. |
| `SceneDispatch.DeclaredOrder` | __main__.py:94-97 | The calls made before index `j` of key `k` are exactly the first calls of the scene. The next call is that index under that key. Every later call is a later index of the same key or comes from a later recognised key. |
| `SceneDispatch.InertStepsEmpty` | __main__.py:94-95 | An action set with no recognised key makes no call. |
| `SceneDispatch.RunFirstAgree` | __main__.py:96-97 | The flags after the first `n` calls depend on those calls alone. |
| `SceneDispatch.RunSnoc` | __main__.py:96-97 | Applying one more call is one more handler update. |
| `SceneDispatch.RunFrame` | __main__.py:96-106 | A strip that no call in a stretch of calls addresses keeps its mute flag across that stretch. |
| `SceneDispatch.LastTouchDecides` | __main__.py:96-106 | The last call to address a strip decides its final flag: mute gives true, unmute false, toggle the negation of the flag just before that call. |
| `SceneDispatch.ToggleParity` | __main__.py:105-106 | If a strip is addressed only by toggles, after any number of calls it is flipped exactly when it has been toggled an odd number of times. |
| `SceneDispatch.DispatchRuns` | __main__.py:85-97 | For a mapped scene, the dispatch equals applying all of its calls in order. This includes the empty table, which makes no call. |
| `SceneDispatch.InertSceneNoOp` | __main__.py:85-95 | Every strip keeps its flag when the scene is absent from the mapping, is mapped to an empty table, or has only keys outside the handler table. |
| `SceneDispatch.UnknownEntryNoSteps` | __main__.py:94-95 | An entry whose key is not a handler contributes no call. Removing it leaves the call sequence unchanged. |
| `SceneDispatch.UnknownEntryWellFormed` | __main__.py:94-95 | The indices under an unknown key are never checked: adding such an entry keeps a scene within range. |
| `SceneDispatch.UnknownKeySkipped` | __main__.py:88-95 | Adding an entry with an unknown key anywhere in a scene does not change the result of the dispatch. |
| `SceneDispatch.UndeclaredStripKept` | __main__.py:94-106 | A strip whose 1-based number no recognised key of the scene declares keeps its mute flag. |
| `SceneDispatch.LaterStepsMiss` | __main__.py:94-97 | If neither later indices of the same key nor later recognised keys declare index `i`, no call after that point addresses `i`. |
| `SceneDispatch.LastDeclaredDecidesRun` | __main__.py:94-106 | Index `j` of recognised key `k`, when nothing later addresses it, sets its strip to the key's effect on the flag just before that call. This form is stated for an action set's calls. |
| `SceneDispatch.LastDeclaredDecides` | __main__.py:94-106 | The same statement for a scene change. |
| `SceneDispatch.MuteSticks` | __main__.py:94-100 | An index under `mute` that nothing later in declared order addresses ends muted. |
| `SceneDispatch.UnmuteSticks` | __main__.py:94-103 | An index under `unmute` that nothing later in declared order addresses ends unmuted. |
| `SceneDispatch.ToggleTwiceRestores` | __main__.py:105-106 | A strip addressed only by toggles, exactly twice in one dispatch, ends with the flag it started with. |
| `SceneDispatch.DeclaredOrderDecidesExample` | __main__.py:94-103 | `{mute: [1], unmute: [1]}` leaves strip 0 unmuted. With the keys the other way round, strip 0 ends muted: the last write wins. |
| `SceneDispatch.MuteListExample` | __main__.py:94-100 | `{mute: [1, 3]}` mutes strips 0 and 2 and leaves every other strip unchanged. |
| `ConfigLoad.Join` | __main__.py:128-130 | Joining a path onto a directory gives a path that ends with that path. An absolute path replaces the directory. |
| `ConfigLoad.JoinUnder` | __main__.py:128-130 | A relative path is joined under the directory: the result starts with the directory, then `/`. |
| `ConfigLoad.Candidates` | __main__.py:126-131 | There are four candidates, and the first is the path as given. An absolute path makes all four candidates that same path. |
| `ConfigLoad.GetFilepath` | __main__.py:125-134 | The search finds nothing exactly when none of the four candidates is a file. Whatever it finds is a file, and it is the first candidate that is a file. |
| `ConfigLoad.FirstFileAtUnique` | __main__.py:132-133 | At most one candidate is the first that is a file, so the search result is determined. |
| `ConfigLoad.FirstFile` | __main__.py:125-134 | The result is nothing exactly when no candidate is a file. Otherwise it is the candidate at the first position that is a file. |
| `ConfigLoad.FirstFileShift` | __main__.py:126-133 | Skipping a first candidate that is not a file does not change which candidate is found first. |
| `ConfigLoad.GetFilepathPriority` | __main__.py:126-133 | The search returns candidate `q` whenever it is a file and no earlier candidate is. The order is: literal path, working directory, install directory, `~/.config/xair-obs`. |
| `ConfigLoad.LoadConfig` | __main__.py:113-142 | The result is not-found exactly when none of the four candidates is a file, and a not-found error always names the requested file. It is a document exactly when the first file parses, and then it is that file's parse. When the first file fails to parse, the result is a decode error naming that file. Conversely, a decode error names the resolved path, whose parse failed. |

## Left out

- The OBS request and event clients, registering the callbacks, and the version query (`__main__.py:54-63`). These are foreign network libraries. The observer is built from the scene mapping alone, not from the whole configuration.
- `__exit__` disconnecting the clients, and `xair_api.connect` (`__main__.py:68-70`, `:193`). These manage connection lifecycles in external libraries. `Bridge.Mixer` stands for the connected mixer. Its constructor just takes the initial mute flags, and it has no counterpart in the source.
- The mixer's other state. A strip is reduced to its mute flag.
- Waiting on the stop event from the main thread, and any concurrency between callbacks (`__main__.py:195-198`). Only the one-shot set is modelled.
- TOML decoding (`__main__.py:138-142`). The parser is a foreign library. It is the parameter `parse`, which either yields a document or fails. Reading the file and a file vanishing between the check and the open are not modelled. Whether a path is a regular file is the parameter `isFile`.
- `parse_args`, `logging.basicConfig`, `main` and every `print`. These are command-line, logging and console plumbing.
- `setup.py`. It is packaging metadata.
- Bridge.Observer.OnCurrentProgramSceneChanged: indices under a recognised key must lie in 1..n, where n is the number of strips (`WellFormed`). With n strips, index `i` becomes reference `i - 1` on the strip tuple. In Python, an index with `1 - n <= i <= 0` therefore addresses a strip counted from the end. An index below `1 - n` or above `n` raises `IndexError` partway through a dispatch. Neither behaviour is modelled. Indices under unknown keys are unconstrained, as in the source, which never reads them.
- A scene's table is an ordered list of (key, indices) pairs. TOML forbids duplicate keys, but the model does not exclude them; a repeated key is simply handled again in its position. Values are taken to be integer lists.
- The falsy test on the looked-up table is modelled as "absent or empty". No other falsy value is possible for a TOML table.
- ConfigLoad.Join: it follows POSIX `pathlib` joining only as far as "an absolute right-hand side replaces the base". Path normalisation and Windows paths are not modelled. The home and working directories are inputs.
