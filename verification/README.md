# RaspenBeere, modelled in Dafny

RaspenBeere runs on a Raspberry Pi with a DHT22 temperature and humidity
sensor. Two programs share a directory of files:

- **The sampler** (`sensor_loop.py`) wakes up every ten minutes, on wall-clock
  multiples of the period. It reads the sensor through a retrying reader and
  appends the reading to the JSON log of the day (`data/sensor/YYYY-MM-DD.json`).
- **The chat bot** (`raspen_beere/bot.py`) answers `/start`, `/help`,
  `/sensor` and `/graph` for authorised users. An access-control gateway
  decides who is authorised:
  - a persisted allow list (`whitelist.json`);
  - a persisted deny list (`blacklist.json`);
  - in-memory pending requests that the administrator approves or denies
    with inline buttons carrying `access_yes:<id>` or `access_no:<id>`.

The model has one Dafny module per source file, plus three small helper
modules.

| file | module | models |
|---|---|---|
| `wrappers.dfy` | `Wrappers` | `Option` |
| `calls.dfy` | `Calls` | the outcome of a Python call that may raise: a value or an exception class |
| `text.dfy` | `Text` | `str(int)`, `int(str)` (whitespace, sign, `_` grouping), the zero-padded fields of `strftime`, `str.split` on one character |
| `file.dfy` | `File` | `raspen_beere/file.py`: naming of the day files |
| `sensor_loop.dfy` | `SensorLoop` | `sensor_loop.py`: `save_data` (a class `SensorStore` whose method rewrites the directory map) and `sleep_duration` |
| `dht22.dfy` | `Dht22` | `raspen_beere/dht22.py`: the retrying reader, a method with a bounded loop |
| `sensor.dfy` | `Sensor` | `raspen_beere/sensor.py`: the single-shot reader |
| `bot.dfy` | `Bot` | `raspen_beere/bot.py`: the gateway, its handlers and `get_last_measurement` |

Several conventions hold across the modules:

- **Gateway as function and class.** The gateway is given twice. The pure
  functions `Authenticate` and `PressButton` map a state `Gate` to a new
  state, the messages sent and the log entries written. The class
  `TelegramBot` updates the maps in place, and each of its methods is proved
  to agree with the matching function.
- **Gateway invariant.** `Consistent` is the invariant:
  - the three key sets are pairwise disjoint;
  - the admin is never pending;
  - each list file reloads to the list in memory.
- **Time.** Time is integer microseconds since midnight.
- **Files.** The directory of day files is a map from path to content. A
  missing key means the file does not exist.
- **Sensor reads.** The retrying reader of `dht22.py` reads from a script
  `nat -> Call<T>`, where entry `i` is the outcome of the i-th read in one
  call. The single-shot reader of `sensor.py` reads once, so its
  `Sensor.Device` holds one `Call<T>` per property.

## Model

| member | source | states |
|---|---|---|
| `Text.NatToString` | raspen_beere/bot.py:104 | the decimal text of a natural number: digits only, no leading zero, and its digit value is the number |
| `Text.IntToString` | raspen_beere/bot.py:70 | `str(id)`: a minus sign followed by the digits of the absolute value for negatives, the digits otherwise |
| `Text.ParseDigits` | raspen_beere/bot.py:225 | digit groups are accepted exactly when well grouped (single `_` between digits), and plain digits denote their decimal value |
| `Text.ParseDigitsIgnoresGroupingUnderscore` | raspen_beere/bot.py:225 | joining two well-grouped digit runs with `_` is accepted and reads the same value as joining them directly, so any number of grouping underscores leaves the value unchanged (`int("1_000_000") == 1000000`) |
| `Text.ParseDigitsSkipsUnderscore` | raspen_beere/bot.py:225 | a single `_` between two digit groups is accepted and does not change the value: `int("12_34") == 1234` |
| `Text.ParseInt` | raspen_beere/bot.py:225 | `int(s)` succeeds exactly when `s`, stripped of the whitespace `int()` skips (space and `\t` to `\r`), is an optional `+` or `-` followed by well-grouped digits; the value is the digits' value, negated after `-` |
| `Text.ParseIntOfIntToString` | raspen_beere/bot.py:70-77 | `int(str(i)) == i` for every integer |
| `Text.IntToStringInjective` | raspen_beere/bot.py:70-77 | two ids with the same list key are the same id |
| `Text.Split` | raspen_beere/bot.py:224 | `split` yields one more part than there are separators, no part contains the separator, and joining the parts with the separator gives back the input |
| `Text.SplitPair` | raspen_beere/bot.py:224 | when `split` gives two parts, they are the text before and the text after the one separator |
| `Text.SplitJoinedPair` | raspen_beere/bot.py:224 | two separator-free strings joined by the separator split back into exactly those two |
| `Text.Pad2` | raspen_beere/file.py:11 | a two-digit zero-padded field whose digit value is the number |
| `Text.Pad4` | raspen_beere/file.py:11 | for a number below 10000, exactly four decimal digits whose value is the number |
| `File.DayStem` | raspen_beere/file.py:11 | the stem is an RFC 3339 `full-date` whose year, month and day fields decode to the date's |
| `File.GetSensorFile` | raspen_beere/file.py:8-14 | json and lock path share directory and stem and differ only in the `.json` / `.lock` suffix |
| `File.SameDaySameFiles` | raspen_beere/file.py:11-14 | two moments of one date give the same pair of files, whatever the time of day |
| `File.DifferentDaysDifferentFiles` | raspen_beere/file.py:11-14 | different dates never share a json file or a lock file |
| `SensorLoop.Timestamp` | sensor_loop.py:20 | the timestamp is zero-padded `HH:MM` decoding to the hour and minute of `now` |
| `SensorLoop.AppendRecord` | sensor_loop.py:19-39 | raises `JSONDecodeError` exactly when the day file exists but does not parse. Otherwise it writes only the day file of `now`: the old log, then the new record as the last entry |
| `SensorLoop.SensorStore.SaveData` | sensor_loop.py:19-39 | the in-place update leaves the directory that `AppendRecord` computes, or leaves it untouched when the call raises |
| `SensorLoop.RecordsOf` | sensor_loop.py:30-36 | one record per call, in order, each built from its call's arguments |
| `SensorLoop.AppendRecordOnDay` | sensor_loop.py:23-36 | one call on a day whose file is absent or parses appends exactly its record to that day's log |
| `SensorLoop.AppendAll` | sensor_loop.py:73-77 | repeated `save_data` calls can only fail with `JSONDecodeError` |
| `SensorLoop.AppendRecordKeepsUnparsable` | sensor_loop.py:23-39 | a successful call never changes whether a day file is unparsable |
| `SensorLoop.AppendAllRaisesOnUnparsable` | sensor_loop.py:24-26 | a run of calls raises exactly when one of them hits an unparsable day file |
| `SensorLoop.AppendAllWritesOnlyTouchedFiles` | sensor_loop.py:19-39 | a run of calls creates only the day files of its calls, and every other file keeps its content |
| `SensorLoop.AppendAllKeepsCallOrder` | sensor_loop.py:23-39 | N calls on one day leave the earlier log followed by the N records in call order; on a fresh day exactly those N |
| `SensorLoop.SleepDuration` | sensor_loop.py:42-69 | raises `ValueError` exactly when the period is not positive. Otherwise the wait is in (0, P] and `now + wait` is the next multiple of P |
| `SensorLoop.NextBoundaryAfter` | sensor_loop.py:43-47 | `(t / P + 1) * P` is a boundary and no boundary lies strictly between `t` and it |
| `SensorLoop.SleepEndsAtNextBoundary` | sensor_loop.py:43-47 | the wake-up instant is the first period boundary strictly after `now` |
| `SensorLoop.SleepAtBoundaryIsFullPeriod` | sensor_loop.py:67-68 | at an exact boundary the wait is a full period, not zero |
| `SensorLoop.SleepJustAfterBoundary` | sensor_loop.py:67-68 | one microsecond past a boundary the wait is one microsecond short of a period |
| `SensorLoop.MainPeriodWaits` | sensor_loop.py:74 | with the ten-minute period of `main` the call never raises; at 12:00:00 it waits 600 s, one second later 599 s |
| `Dht22.TryGet` | raspen_beere/dht22.py:18-26 | at most 15 reads: all but the last raised `RuntimeError` and each was followed by a sleep. The last read's value or exception is the result, or `TimeoutError` after 15 transient reads and 15 sleeps |
| `Dht22.GetTemperature` | raspen_beere/dht22.py:12-13 | exactly the retry behaviour on the temperature reads |
| `Dht22.GetHumidity` | raspen_beere/dht22.py:15-16 | exactly the retry behaviour on the humidity reads |
| `Dht22.RetryBehaviourIsDeterministic` | raspen_beere/dht22.py:18-26 | the read script fixes the result, the number of reads and the number of sleeps |
| `Dht22.AllAttemptsTransient` | raspen_beere/dht22.py:19-26 | fifteen `RuntimeError`s give `TimeoutError` after fifteen reads and 30 s of sleep |
| `Dht22.SuccessAfterTransients` | raspen_beere/dht22.py:19-25 | k < 15 `RuntimeError`s then a value give that value after k sleeps and k + 1 reads |
| `Dht22.OtherErrorPropagates` | raspen_beere/dht22.py:20-25 | any other exception ends the call at once and propagates, with no further read |
| `Sensor.GetTemperature` | raspen_beere/sensor.py:9-14 | `None` exactly on `RuntimeError`, the value when the read returns, any other exception propagated |
| `Sensor.GetHumidity` | raspen_beere/sensor.py:16-21 | the same discipline for humidity |
| `Sensor.SingleShotAgreesWithFirstAttempt` | raspen_beere/sensor.py:9-14 | when the first read is not transient, the single-shot reader reports what the retrying one reports after one read and no sleep. When it is transient, only the single-shot reader gives up, with `None` |
| `Bot.LoadJsonUsers` | raspen_beere/bot.py:40-46 | a missing file is the empty list; a malformed file raises `JSONDecodeError`; a stored file is its users |
| `Bot.OrUnknown` | raspen_beere/bot.py:93-96 | an absent or empty field reads "Unknown" |
| `Bot.ProfileOf` | raspen_beere/bot.py:91-97 | the profile keeps the id, defaults every missing field to "Unknown" and prefixes the username with "@" |
| `Bot.AccessPrompt` | raspen_beere/bot.py:102-124 | the prompt goes to the admin, with an approve button `access_yes:<id>` and a deny button `access_no:<id>` |
| `Bot.Authenticate` | raspen_beere/bot.py:64-125 | accepted iff not deny-listed and (admin or allow-listed); the deny list wins. Only `pending` changes, gaining the user exactly when the admin is prompted once. Each case sends its reply. Keeps `Consistent` |
| `Bot.RepeatedRequestIsIdempotent` | raspen_beere/bot.py:80-85 | a second command from the same user changes nothing and prompts nobody, so two commands prompt the admin at most once |
| `Bot.ParseCallback` | raspen_beere/bot.py:223-228 | data with other than exactly one `:` is rejected. A parsed decision is the text before the `:` and holds no `:`; the parsed id is `int()` of the text after it |
| `Bot.ParseCallbackAcceptsInteger` | raspen_beere/bot.py:223-228 | data `"<decision>:<text>"` with no other `:` is parsed to that decision and `int()` of the text, whatever its spelling (`"+7"`, `" 7"`) |
| `Bot.ParseCallbackRejectsNonInteger` | raspen_beere/bot.py:223-228 | data whose text after the `:` is not an integer is rejected |
| `Bot.CallbackRoundTrip` | raspen_beere/bot.py:114-115 | button data `"<decision>:<id>"` parses back to the same decision and id |
| `Bot.Decide` | raspen_beere/bot.py:230-260 | a decision on a pending id removes it from pending. `access_yes` files the stored profile under the allow list, rewrites that file and leaves the deny list alone; `access_no` does the same with the deny list; any other decision drops the request silently. A failed notice is only logged |
| `Bot.PressButton` | raspen_beere/bot.py:215-260 | every press is acknowledged and the lists only grow. Presses by a non-admin change nothing. Malformed data is logged and changes nothing. A decision on an id that is not pending answers "Request expired." and changes nothing. A decision on a pending id is `Decide`, after the acknowledgement |
| `Bot.DeliveryDoesNotAffectState` | raspen_beere/bot.py:242-260 | whether the requester is notified never changes the state reached |
| `Bot.DecideKeepsConsistent` | raspen_beere/bot.py:230-253 | deciding a pending request keeps the three key sets pairwise disjoint and the admin out of pending |
| `Bot.PressButtonKeepsConsistent` | raspen_beere/bot.py:230-253 | button presses keep the three key sets pairwise disjoint and the admin out of pending |
| `Bot.DenialIsFinal` | raspen_beere/bot.py:69-74 | a deny-listed user is always refused, prompts nobody, and stays deny-listed after any button press |
| `Bot.ApprovalScenario` | raspen_beere/bot.py:87-125 | an unknown user is refused and the admin is prompted. Approving adds the user to the allow list and notifies them. Their next command is accepted with no new prompt |
| `Bot.ApprovePressAllowLists` | raspen_beere/bot.py:230-246 | the admin's approve press on a pending id removes the request, files its stored profile under the allow list, leaves the deny list alone, and sends the acknowledgement, the edited prompt and the requester's notice in that order |
| `Bot.GetLastMeasurement` | raspen_beere/bot.py:52-62 | `None` exactly when today's file is absent, unparsable or empty; otherwise the whole day log |
| `Bot.SavedReadingIsLastMeasurement` | raspen_beere/bot.py:142-144 | a reading saved today is the last record of the log the bot reads for today |
| `Bot.SensorReply` | raspen_beere/bot.py:143-151 | the no-data notice exactly when the data is `None` or empty (`if data:`); otherwise the temperature and humidity of the last record |
| `Bot.SensorReportsSavedReading` | raspen_beere/bot.py:143-151 | after a reading is saved, `/sensor` on the same day reports exactly that temperature and humidity |
| `Bot.GraphReply` | raspen_beere/bot.py:159-192 | the no-data notice exactly when the data is `None` or empty (`if data:`); otherwise a photo of all the records with the caption "Todays sensor data" |
| `Bot.GraphPlotsSavesInOrder` | raspen_beere/bot.py:159-192 | after a run of saves on one day, `/graph` plots that day's earlier log followed by the new readings in call order |
| `Bot.TelegramBot.constructor` | raspen_beere/bot.py:26-35 | both lists are loaded from their files and nothing is pending; the state is consistent iff the lists are disjoint |
| `Bot.TelegramBot.CheckAuthentication` | raspen_beere/bot.py:64-125 | the in-place update, its result and its messages are those of `Authenticate`; the invariant is kept |
| `Bot.TelegramBot.Button` | raspen_beere/bot.py:215-260 | the in-place update, the messages and the log are those of `PressButton`; the invariant is kept |
| `Bot.TelegramBot.ApplyDecision` | raspen_beere/bot.py:230-260 | the in-place pop and list update, the messages and the log are those of `Decide` |
| `Bot.TelegramBot.Start` | raspen_beere/bot.py:127-136 | the command list is sent only to an accepted user, after authentication |
| `Bot.TelegramBot.Sensor` | raspen_beere/bot.py:138-152 | an accepted user gets the latest reading of today, or the no-data notice |
| `Bot.TelegramBot.Graph` | raspen_beere/bot.py:154-192 | an accepted user gets the plot of today's log, or the no-data notice |
| `Bot.TelegramBot.Pihole` | raspen_beere/bot.py:194-202 | only the admin id gets a reply |
| `Bot.TelegramBot.History` | raspen_beere/bot.py:204-213 | only the admin id gets a reply |

## Left out

- **Chat transport.** The transport is the `Application`, handler
  registration, message rendering and the inline keyboard markup
  (raspen_beere/bot.py:262-272). Outgoing messages are the values of
  `Bot.Outgoing`, and a notice the requester cannot receive is the
  `delivered` parameter.
- **Plotting.** `graph` plots with matplotlib and sends a PNG. `Bot.GraphReply`
  stands for this with the records that would be plotted.
- **`pihole` and `history` bodies.** Only the admin-id guard is modelled. The
  password from the environment and the reply built from the DNS log file
  are parameters. Filtering that log file is not modelled.
- **Concurrency.** `asyncio.Lock` and any concurrency are left out. The
  model is sequential. The pending check at raspen_beere/bot.py:81 and the
  insert at line 100 are separate lock sections with awaits between them,
  and the model claims nothing about interleavings.
- **File locking.** `FileLock` and the lock file's existence on disk are not
  modelled. Only the lock file's name is.
- **JSON encoding.** JSON encoding and decoding is left out. A day file is
  either a list of records or unparsable. A user-list file is missing,
  malformed or a map. JSON values of another shape (a top-level object in a
  day file, for instance) are not modelled.
- **Floating point.**
  - Readings are `real`, so `float()` conversion and rounding are not
    modelled.
  - `sleep_duration` adds `microsecond / 1_000_000` in floating point and
    returns seconds. The model computes exactly in integer microseconds.
- **Default parameters.** The default arguments of `sleep_duration` (`0`
  minutes and `10` seconds) are not modelled. `main`'s explicit ten-minute
  period is.
- **`int()`.** `int()` also accepts non-ASCII digits and Unicode
  whitespace. `Text.ParseInt` models ASCII text only.
  - From Python 3.10.7 on, `int()` also raises `ValueError` on text of more
    than 4300 digits (`sys.get_int_max_str_digits`). `Text.ParseInt` has no
    such limit. Callback data is at most 64 bytes, so the limit never applies
    to it.
- `Text.Pad4`: does not model `strftime("%Y")` for years below 1000, whose
  output is platform-dependent. The model always pads the year to four digits.
- **Hardware, clock and environment.** The hardware driver (`adafruit_dht`,
  `board`), `time.sleep`, `datetime.now()`, environment variables and the
  `mkdir` calls are outside the model.
  - Reads are scripts.
  - Sleeps are counted.
  - The current time and the admin id are parameters.
- **`main` and `read_sensor`.** The endless `while True` loop of `main` and
  `read_sensor` (sensor_loop.py:13-16, 72-77) are not modelled as loops.
  - The behaviour of one iteration is `SleepDuration` followed by
    `Dht22.GetTemperature` / `Dht22.GetHumidity` and then
    `SensorStore.SaveData`.
  - Repeated `save_data` calls, with their readings given, are
    `SensorLoop.AppendAll`.
  - An iteration whose read raises (`TimeoutError` after 15 transient reads,
    or any other exception) ends `main` before its `save_data`.
    `SensorLoop.AppendAll` does not represent such an iteration.
- **`save_json_users`.** It (raspen_beere/bot.py:48-50) is the file update
  `whitelistFile := Stored(whitelist)` and its deny-list counterpart.
- `Bot.TelegramBot.constructor`: requires both list files to load (a
  constructor with a malformed file is not modelled). With a malformed file, `json.load`
  raises in the source and no bot exists.
- **Callback data that is not text.** Absent callback data (a `None`
  `query.data`) is not modelled. The data is always a string.

Places where the code's behaviour may surprise a reader (the model follows
the code in each):

- the decision tokens are `access_yes` and `access_no`;
- the retrying reader fails with `TimeoutError`;
- the sampler uses the retrying reader, not a best-effort one;
- a sensor `TimeoutError` ends the sampler instead of being recorded as a
  missing reading;
- an unparsable day file makes `save_data` raise instead of being read as
  empty;
- an unparsable user-list file makes the constructor raise instead of being
  read as empty;
- an unknown decision on a pending id drops the request without deciding it.
