# LADB core, modelled in Dafny

LADB runs the `adb` client on an Android device and connects it to the
device's own wireless-debugging daemon. This project models the parts of the
app that decide what happens.

- **DNS-SD port election** (`dns_discover.dfy`). The app watches the
  `_adb-tls-connect._tcp` advertisements. It picks the one with the latest
  expiration time. When no advertisement carries one, it falls back to the
  highest `(n)` counter in the service name. It also tracks which discovered
  advertisements still await resolution.
- **The `adb` supervisor** (`adb.dfy`). This covers `initServer` and its DNS
  wait, the choice of connect port, and `connectionAndStart`. That step parses
  the `adb devices` listing, chooses a device, launches the interactive shell
  and writes the startup lines to it. It also covers pairing, and reading the
  output-buffer size setting.
- **The output feed** (`output_tail.dfy`, `change_feed.dfy`). The shell writes
  into a buffer file. Three pollers read that file through a tail window and
  post a value only when it changed. They are the view model's output thread
  and the two activities' `startOutputFeed`.
- **Client set-up** (`client_setup.dfy`, `views_main_activity.dfy`,
  `legacy_main_activity.dfy`, `main_view_model.dfy`). This covers when pairing
  is asked for, and the latch that blocks set-up until the pairing dialog
  closes. It also covers `wait-for-device`, the shell, the reset button, and
  the view model's start-once launch of the supervisor.
- **Bookmarks** (`bookmarks.dfy`, `bookmarks_view_model.dfy`). The bookmarks
  are a `TreeSet<String>` held as an ascending sequence. It is persisted whole
  after every change. The add and edit dialogs sit in front of it.

External processes, the clock, the network and the preferences are inputs.

- A process is represented by its outcome. For `adb connect` this is whether it
  finished in time. For `adb devices` it is the printed lines. For `adb pair` it
  is the exit status.
- Every launched process is recorded by its argument vector in a `launched`
  log.
- The lines written to the shell are recorded in `shellInput`.
- The buffer file is seen by its pollers as a sequence of snapshots, one per
  poll.
- Kotlin nullables are `Option`. Java `int` parsing and printing are modelled
  with the 32-bit range written out (`numbers.dfy`).

Where the design notes and the code disagree, the model follows the code:

- `getHighestNumberedString` scores an unnumbered name as -1, and its
  first-element fallback can never be reached on a non-empty list.
- When the name comparison accepts a candidate without an expiration time, it
  overwrites `bestExpirationTime` with null. A later advertisement that does
  carry a time then wins outright.
- `startADBServer` treats the result of `initServer` as a success flag. The
  model reads it as "`initServer` returned `Success`".
- The legacy `MainActivity` asks for pairing whenever the device is unpaired, on
  every SDK level. Its SDK test is short-circuited by `true ||`.

## Model

| member | source | states |
|---|---|---|
| Numbers.ParseInt | app/src/main/java/com/draco/ladb/utils/ADB.kt:86-90 | `Integer.parseInt`: a result is always a 32-bit value. A digit string parses exactly when its value fits, and then to that value. A `-` or `+` followed by digits parses exactly when the signed value fits, and then to it. The empty string, a lone sign, a sign followed by a non-digit, and a string with a non-digit that does not start with a sign are rejected. |
| Numbers.ParseDecimalRoundTrip | app/src/main/java/com/draco/ladb/utils/ADB.kt:211 | Printing any 32-bit value with `toString` and parsing it back gives the same value. |
| Numbers.DigitsValueOfDecimal | app/src/main/java/com/draco/ladb/utils/ADB.kt:211 | The decimal digits printed for a non-negative number read back as that number. |
| Text.IndexOfIsFirst | app/src/main/java/com/draco/ladb/utils/ADB.kt:104-106 | The substring scan returns the first offset at or after the start where the pattern occurs, and -1 exactly when there is none. |
| Text.ContainsIsIndexOf | app/src/main/java/com/draco/ladb/utils/ADB.kt:252-254 | `contains` holds exactly when the scan from offset 0 finds the pattern. |
| Text.ContainsHasChars | app/src/main/java/com/draco/ladb/utils/ADB.kt:267-269 | A string containing a pattern contains each of the pattern's characters. |
| OutputTail.Tail | app/src/main/java/com/draco/ladb/viewmodels/MainActivityViewModel.kt:147-159 | The window read is a suffix of the file, no longer than the window, and the whole file whenever it is shorter than the window. |
| OutputTail.TailAt | app/src/main/java/com/draco/ladb/viewmodels/MainActivityViewModel.kt:153-155 | Byte for byte, a long file's window holds the bytes from offset `size - window` on. A short file's window is the file itself. |
| OutputTail.TailForgetsHead | app/src/main/java/com/draco/ladb/viewmodels/MainActivityViewModel.kt:153-159 | Once the bytes appended fill the window, the window no longer depends on earlier contents. |
| OutputTail.TailOfAppend | app/src/main/java/com/draco/ladb/viewmodels/MainActivityViewModel.kt:150-159 | The window after an append is determined by the window before it plus the appended bytes. |
| OutputTail.Tails | app/src/main/java/com/draco/ladb/viewmodels/MainActivityViewModel.kt:94-95 | The polls read one window per snapshot. |
| OutputTail.TailsAt | app/src/main/java/com/draco/ladb/viewmodels/MainActivityViewModel.kt:95 | Poll `i` reads the window of snapshot `i`, and a missing file reads as empty. |
| OutputTail.TailsSnoc | app/src/main/java/com/draco/ladb/viewmodels/MainActivityViewModel.kt:94-95 | One more poll appends exactly its own window to what was read. |
| OutputTail.FirstMissing | app/src/main/java/com/draco/ladb/views/MainActivity.kt:208 | The number of polls made by a feed that runs while the file exists is at most the number of snapshots. |
| OutputTail.FirstMissingIsFirst | app/src/main/java/com/draco/ladb/views/MainActivity.kt:208 | The file exists at every poll before that count, and is missing at the poll that stops the feed. |
| OutputTail.FirstMissingAt | app/src/main/java/com/draco/ladb/views/MainActivity.kt:208 | Scanning from the front, a poll that finds the file goes on and one that finds it missing stops exactly at the first missing snapshot. |
| OutputTail.BufferFile.WriteText | app/src/main/java/com/draco/ladb/viewmodels/MainActivityViewModel.kt:117 | After `writeText` the file exists and holds exactly the text written. |
| OutputTail.BufferFile.AppendText | app/src/main/java/com/draco/ladb/views/MainActivity.kt:307-309 | After `appendText` the file exists and holds its old bytes, none when it was missing, followed by the text. |
| ChangeFeed.PostsAppend | app/src/main/java/com/draco/ladb/viewmodels/MainActivityViewModel.kt:96-98 | One more poll posts its value exactly when that value differs from what is shown, and afterwards shows it. |
| ChangeFeed.PostsBounded | app/src/main/java/com/draco/ladb/viewmodels/MainActivityViewModel.kt:97-98 | There are never more posts than polls. |
| ChangeFeed.PostsNeverRepeat | app/src/main/java/com/draco/ladb/viewmodels/MainActivityViewModel.kt:97-98 | No post repeats the value shown before it: consecutive posts differ, and the first differs from the starting value. |
| ChangeFeed.PostsReachShown | app/src/main/java/com/draco/ladb/viewmodels/MainActivityViewModel.kt:96-98 | The last post is the value finally shown, and with no post the starting value is still shown. |
| ChangeFeed.UnchangedPostsOnce | app/src/main/java/com/draco/ladb/viewmodels/MainActivityViewModel.kt:96-98 | Polling one unchanged value any number of times posts it at most once, and not at all when it is already shown. |
| DnsDiscover.DigitRunIsMaximal | app/src/main/java/com/draco/ladb/utils/DnsDiscover.kt:100 | The `\d+` group is greedy: all digits, stopping before a non-digit. |
| DnsDiscover.CounterSkips | app/src/main/java/com/draco/ladb/utils/DnsDiscover.kt:100 | The regex search passes over offsets where `\((\d+)\)` does not match. |
| DnsDiscover.CounterRange | app/src/main/java/com/draco/ladb/utils/DnsDiscover.kt:100 | Every score lies between -1 (no match, or digits beyond `Int`) and the largest 32-bit value. |
| DnsDiscover.UnnumberedCounter | app/src/main/java/com/draco/ladb/utils/DnsDiscover.kt:100 | A name without a parenthesis scores -1. |
| DnsDiscover.NumberedCounter | app/src/main/java/com/draco/ladb/utils/DnsDiscover.kt:98-101 | A renamed advertiser `base (n)` scores `n`. |
| DnsDiscover.HighestIndexIsFirstMax | app/src/main/java/com/draco/ladb/utils/DnsDiscover.kt:99-101 | `maxByOrNull` picks an element with the highest score, the first one on ties. |
| DnsDiscover.NameComparison | app/src/main/java/com/draco/ladb/utils/DnsDiscover.kt:141 | A candidate wins the name comparison exactly when its name is the current one or scores strictly higher. |
| DnsDiscover.Elect | app/src/main/java/com/draco/ladb/utils/DnsDiscover.kt:104-145 | An election step either keeps the winner or overwrites port, expiration and name together from the candidate. |
| DnsDiscover.ElectionRule | app/src/main/java/com/draco/ladb/utils/DnsDiscover.kt:111-145 | The candidate replaces the winner exactly when there is no winner yet, or it carries an expiration time and none is recorded or its time is strictly later, or it carries none and its name is the same or scores higher. Otherwise nothing changes. |
| DnsDiscover.TimedFoldAgrees | app/src/main/java/com/draco/ladb/utils/DnsDiscover.kt:119-136 | Over advertisements that all carry an expiration time, the election is the comparison on times alone. |
| DnsDiscover.UntimedFoldAgrees | app/src/main/java/com/draco/ladb/utils/DnsDiscover.kt:138-145 | Over advertisements that carry none, the election is the comparison on names alone. |
| DnsDiscover.LatestExpirationWinsTimed | app/src/main/java/com/draco/ladb/utils/DnsDiscover.kt:119-136 | Among timed advertisements the winner is the first one with the latest expiration time. |
| DnsDiscover.LatestExpirationWins | app/src/main/java/com/draco/ladb/utils/DnsDiscover.kt:111-136 | Whatever order timed advertisements resolve in, the elected port is that of the first advertisement with the latest expiration time. |
| DnsDiscover.HighestCounterWinsUntimed | app/src/main/java/com/draco/ladb/utils/DnsDiscover.kt:138-145 | Among untimed advertisements the winner has a name with the highest counter. |
| DnsDiscover.HighestCounterWins | app/src/main/java/com/draco/ladb/utils/DnsDiscover.kt:111-145 | Whatever order untimed advertisements resolve in, the elected port belongs to an advertisement whose name has the highest counter. |
| DnsDiscover.ExampleCounters | app/src/main/java/com/draco/ladb/utils/DnsDiscover.kt:138-140 | `ADB`, `ADB (2)` and `ADB (3)` score -1, 2 and 3. |
| DnsDiscover.NumberedNamesExample | app/src/main/java/com/draco/ladb/utils/DnsDiscover.kt:138-145 | `ADB`, `ADB (2)` and `ADB (3)` without expiration times, resolved in any order, elect the port of `ADB (3)`. |
| DnsDiscover.RemoveNamed | app/src/main/java/com/draco/ladb/utils/DnsDiscover.kt:210 | The pending list keeps exactly the entries with a different name, and never grows. |
| DnsDiscover.DnsDiscover.constructor | app/src/main/java/com/draco/ladb/utils/DnsDiscover.kt:22-32 | Discovery starts unstarted, with no winner and nothing pending. |
| DnsDiscover.DnsDiscover.ScanAdbPorts | app/src/main/java/com/draco/ladb/utils/DnsDiscover.kt:42-54 | Discovery starts once and records when it began. A second call changes nothing. |
| DnsDiscover.DnsDiscover.UpdateIfNewest | app/src/main/java/com/draco/ladb/utils/DnsDiscover.kt:91-146 | The new winner is the election step applied to the old winner and the candidate. The pending list and discovery state are untouched. |
| DnsDiscover.DnsDiscover.HandleResolvedService | app/src/main/java/com/draco/ladb/utils/DnsDiscover.kt:168-187 | An advertisement from another host or with port 0 leaves the winner unchanged. Any other goes through the election. |
| DnsDiscover.DnsDiscover.OnServiceFound | app/src/main/java/com/draco/ladb/utils/DnsDiscover.kt:230-239 | The advertisement is appended to the pending list and the pending flag goes up. |
| DnsDiscover.DnsDiscover.OnServiceResolved | app/src/main/java/com/draco/ladb/utils/DnsDiscover.kt:206-218 | The election runs, every pending entry with that name is removed, and the flag is up exactly while entries remain. |
| DnsDiscover.DnsDiscover.OnResolveFailed | app/src/main/java/com/draco/ladb/utils/DnsDiscover.kt:195-203 | The resolve is re-issued exactly for `FAILURE_ALREADY_ACTIVE`. A failed advertisement still pending keeps the flag up. |
| Adb.BeforeTabIsField | app/src/main/java/com/draco/ladb/utils/ADB.kt:109-111 | The first field is a tab-free prefix of the line ending at its first tab, or the whole line. |
| Adb.GetDevicesIsPipeline | app/src/main/java/com/draco/ladb/utils/ADB.kt:104-116 | The per-line listing equals the three-stage pipeline: drop header lines, take the first fields, drop empty names. |
| Adb.FirstFieldsAppend | app/src/main/java/com/draco/ladb/utils/ADB.kt:109-111 | Taking first fields distributes over concatenated listings. |
| Adb.DropEmptyAppend | app/src/main/java/com/draco/ladb/utils/ADB.kt:114-116 | Dropping empty names distributes over concatenated listings. |
| Adb.DevicesListed | app/src/main/java/com/draco/ladb/utils/ADB.kt:104-116 | A name is listed exactly when it is non-empty and is the first field of some line that is not the header. |
| Adb.DevicesAreNames | app/src/main/java/com/draco/ladb/utils/ADB.kt:104-116 | Every listed name is non-empty and contains no tab. |
| Adb.DevicesInOrder | app/src/main/java/com/draco/ladb/utils/ADB.kt:104-116 | The listing of concatenated output is the concatenation of the listings, in order. |
| Adb.OneDeviceListing | app/src/main/java/com/draco/ladb/utils/ADB.kt:101-116 | The header line followed by `serial\tstate` lists exactly that serial, for any non-empty serial without a tab and any state that does not hold the header. |
| Text.ContainsAcrossSeparator | app/src/main/java/com/draco/ladb/utils/ADB.kt:104-106 | A text without the separator that occurs in `a`, the separator and `b` joined occurs in `a` or in `b`: a header cannot straddle the tab of a device line. |
| Adb.FirstWithIsFirst | app/src/main/java/com/draco/ladb/utils/ADB.kt:252-258 | The search returns the first index whose name contains (or lacks) the pattern, or the length when there is none. |
| Adb.ChooseDevice | app/src/main/java/com/draco/ladb/utils/ADB.kt:250-282 | The serial chosen among several devices is one of the listed devices. |
| Adb.DevicePriority | app/src/main/java/com/draco/ladb/utils/ADB.kt:250-282 | The first local device is chosen when there is one. Otherwise the first non-emulator is chosen when there is one. Otherwise the first device is chosen. |
| Adb.ShellArgs | app/src/main/java/com/draco/ladb/utils/ADB.kt:247-285 | One device gives a plain `shell`. Several give `-s <serial> shell` with a listed serial. |
| Adb.EmulatorPassedOver | app/src/main/java/com/draco/ladb/utils/ADB.kt:267-275 | An emulator listed before a network device is passed over. |
| Adb.LocalDevicePreferred | app/src/main/java/com/draco/ladb/utils/ADB.kt:252-260 | A `localhost` device wins over an earlier network device. |
| Adb.ConnectPort | app/src/main/java/com/draco/ladb/utils/ADB.kt:211-212 | There is no port exactly when nothing was remembered, discovered or entered. A remembered port always wins. |
| Adb.DiscoveredPortRoundTrip | app/src/main/java/com/draco/ladb/utils/ADB.kt:211 | With nothing remembered, a discovered port is used ahead of the manual one and its text parses back to the discovered number. |
| Adb.ManualPortLast | app/src/main/java/com/draco/ladb/utils/ADB.kt:211 | The manual port is used exactly when it is the remembered one, or nothing is remembered and nothing different was discovered. |
| Adb.DiscoveredTarget | app/src/main/java/com/draco/ladb/utils/ADB.kt:211-225 | With nothing remembered, the connect target for a discovered port is `localhost:` followed by text that parses back to that port. |
| Adb.AwaitDns | app/src/main/java/com/draco/ladb/utils/ADB.kt:184-200 | The wait stops at the first observation where the minimum dwell is over with nothing pending, or the ten-second ceiling has passed. It reports which of the two ended it, and every earlier observation was before the ceiling. |
| Adb.GetOutputBufferSize | app/src/main/java/com/draco/ladb/utils/ADB.kt:84-91 | The size is the setting parsed as a Java `int` (the default text when unset), and 16384 when that text does not parse. |
| Adb.DefaultBufferSize | app/src/main/java/com/draco/ladb/utils/ADB.kt:85-89 | With no setting, or a setting that is not a number, the size is 16 KiB. |
| Adb.SignedSetting | app/src/main/java/com/draco/ladb/utils/ADB.kt:84-91 | A setting of `-` and digits is read as the negative number, not replaced by the default: the size is negative. |
| Adb.StartupLines | app/src/main/java/com/draco/ladb/utils/ADB.kt:290-306 | A fresh shell first receives the `adb` alias, and two to four lines in all. |
| Adb.StartupCommandLast | app/src/main/java/com/draco/ladb/utils/ADB.kt:303-306 | The last startup line is the default greeting when nothing is stored, the stored command when it is not empty, and the shell banner when an empty command is stored. |
| Adb.Adb.constructor | app/src/main/java/com/draco/ladb/utils/ADB.kt:65-73 | The remembered port is loaded from the preferences. Nothing runs and no manual port is set. |
| Adb.Adb.SetManualDebugPort | app/src/main/java/com/draco/ladb/utils/ADB.kt:75 | The port becomes both the manual and the remembered port. It is not saved. |
| Adb.Adb.SendToShellProcess | app/src/main/java/com/draco/ladb/utils/ADB.kt:472-479 | A line reaches the shell exactly when there is one, and is dropped otherwise. |
| Adb.Adb.StartShell | app/src/main/java/com/draco/ladb/utils/ADB.kt:246-306 | The shell launched is `adb [-s serial] shell` (or `sh -l` without auto-shell), and it receives exactly the startup lines. |
| Adb.Adb.SendStartupLines | app/src/main/java/com/draco/ladb/utils/ADB.kt:290-306 | The shell receives, in order, the alias, the grant when the permission is missing, the greeting, and the startup command unless it is empty. |
| Adb.Adb.ConnectionAndStart | app/src/main/java/com/draco/ladb/utils/ADB.kt:223-315 | A timed-out connect fails and changes no port. An empty listing asks for a port and forgets the remembered one. Otherwise the port is remembered and saved, and the shell is running with its startup lines. Every normal exit lowers the guard. |
| Adb.Adb.ListDevicesAndStart | app/src/main/java/com/draco/ladb/utils/ADB.kt:235-314 | After the connect, the result is `NeedsPort` exactly for an empty listing and `Success` otherwise, with the processes launched and the port state set as in `connectionAndStart`. |
| Adb.Adb.InitServer | app/src/main/java/com/draco/ladb/utils/ADB.kt:128-221 | A running shell or a start under way returns `Success` and changes nothing. With auto-shell, the server starts and the port comes from the remembered, discovered and manual choices. With no port at all the result is `NeedsPort`. Otherwise the result is that of connecting. On every normal exit the re-entrancy guard ends as it began. |
| Adb.Adb.ResumeInitServerWithPort | app/src/main/java/com/draco/ladb/utils/ADB.kt:502-505 | The entered port becomes the manual one and the connection is retried with it. On success it is remembered and saved. |
| Adb.Adb.Pair | app/src/main/java/com/draco/ladb/utils/ADB.kt:413-436 | `adb pair localhost:<port>` then `adb kill-server` are launched. Pairing succeeds exactly when the pair process exited with 0. |
| MainViewModel.ReadOutputFile | app/src/main/java/com/draco/ladb/viewmodels/MainActivityViewModel.kt:140-160 | A negative buffer size fails before the file is looked at. A missing file reads as empty. Otherwise the read is a suffix of the file, no longer than the buffer: all of a file that fits, and exactly the buffer's length of a longer one. |
| MainViewModel.UnchangedFilePostsOnce | app/src/main/java/com/draco/ladb/viewmodels/MainActivityViewModel.kt:92-102 | Polling a file that does not change posts nothing when its window is shown, and otherwise posts it exactly once. |
| MainViewModel.MainActivityViewModel.constructor | app/src/main/java/com/draco/ladb/viewmodels/MainActivityViewModel.kt:25-43 | The output has no value yet, and nothing has been started. |
| MainViewModel.MainActivityViewModel.RunOutputThread | app/src/main/java/com/draco/ladb/viewmodels/MainActivityViewModel.kt:92-102 | With a negative size nothing is posted. Otherwise the posts are exactly the change feed over the windows of the snapshots, and the text ends as the last window read. |
| MainViewModel.MainActivityViewModel.PostIfChanged | app/src/main/java/com/draco/ladb/viewmodels/MainActivityViewModel.kt:95-98 | One poll extends the post log and the shown value exactly as the change feed does. |
| MainViewModel.MainActivityViewModel.StartAdbServer | app/src/main/java/com/draco/ladb/viewmodels/MainActivityViewModel.kt:51-63 | When already started or running, nothing happens and the callback is not invoked. Otherwise the callback gets whether `initServer` succeeded. On success, one death watcher starts and the started flag is set. A fresh success leaves the shell running. |
| MainViewModel.MainActivityViewModel.ClearOutputText | app/src/main/java/com/draco/ladb/viewmodels/MainActivityViewModel.kt:116-118 | The buffer file exists and is empty. |
| MainViewModel.MainActivityViewModel.SetPairedBefore | app/src/main/java/com/draco/ladb/viewmodels/MainActivityViewModel.kt:123-135 | The flag is recorded. Afterwards pairing is needed exactly when the flag is cleared on Android 11 or later. |
| ViewsMainActivity.ReadEndOfFile | app/src/main/java/com/draco/ladb/views/MainActivity.kt:190-204 | The read is a suffix of the file: all of it when it fits the window, otherwise exactly the window's length. |
| ViewsMainActivity.MainActivity.constructor | app/src/main/java/com/draco/ladb/views/MainActivity.kt:113-117 | The buffer is a new, empty temporary file. Set-up starts idle with the pairing latch at one, nothing launched or logged and the command box disabled. |
| ViewsMainActivity.MainActivity.DebugMessage | app/src/main/java/com/draco/ladb/views/MainActivity.kt:307-309 | The message's `DEBUG: ` line, ending in a newline, is added at the end of the buffer file. |
| ViewsMainActivity.MainActivity.LaunchRedirected | app/src/main/java/com/draco/ladb/views/MainActivity.kt:310-330 | A process launched with `redirect` is recorded, and the buffer file is truncated by the redirection of its output into it. |
| ViewsMainActivity.MainActivity.StartOutputFeed | app/src/main/java/com/draco/ladb/views/MainActivity.kt:206-225 | The feed polls exactly until the file is first missing. Its posts are the change feed over the windows read, and the output ends as the last window. |
| ViewsMainActivity.MainActivity.PostIfChanged | app/src/main/java/com/draco/ladb/views/MainActivity.kt:210-213 | One poll posts its window exactly when it differs from the current output. |
| ViewsMainActivity.MainActivity.InitializeClient | app/src/main/java/com/draco/ladb/views/MainActivity.kt:227-275 | Unpaired on Android 11 or later, the pairing request is logged, the pairing dialog shows, and set-up blocks while the latch is up. Otherwise `wait-for-device` and then the shell are launched, the device is marked paired, the four or three steps are logged in order, and the shell's redirection leaves the buffer empty. |
| ViewsMainActivity.MainActivity.PairDialogConfirmed | app/src/main/java/com/draco/ladb/views/MainActivity.kt:277-305 | The request is logged, then `adb pair` is launched into the buffer, which that empties, and the latch counts down, whatever the outcome. Nothing else changes. |
| ViewsMainActivity.MainActivity.AwaitPairing | app/src/main/java/com/draco/ladb/views/MainActivity.kt:247-259 | Set-up stays blocked, with the buffer untouched, while the latch is up. Once it is down, set-up proceeds to `wait-for-device` and the shell, as `ConnectAndShell` states. |
| ViewsMainActivity.MainActivity.ConnectAndShell | app/src/main/java/com/draco/ladb/views/MainActivity.kt:250-266 | Each step is logged before it is taken. `wait-for-device` runs before the device is marked paired, and then the shell starts with its output redirected into the buffer, which is left empty. |
| ViewsMainActivity.MainActivity.OnShellDeath | app/src/main/java/com/draco/ladb/views/MainActivity.kt:268-273 | When the shell dies, the death is logged after whatever the shell wrote, commands are disabled, and nothing else changes. |
| ViewsMainActivity.MainActivity.Reset | app/src/main/java/com/draco/ladb/views/MainActivity.kt:82-104 | The buffer is emptied, `adb disconnect` and `adb kill-server` are launched, and the paired flag is cleared. The buffer ends holding exactly the reset's six `DEBUG:` lines, in order. |
| ViewsMainActivity.MainActivity.ResetServer | app/src/main/java/com/draco/ladb/views/MainActivity.kt:88-96 | After the emptied buffer, the first three lines are logged, each before its step: disconnect, kill the server, clear the paired flag. |
| ViewsMainActivity.MainActivity.ResetFiles | app/src/main/java/com/draco/ladb/views/MainActivity.kt:97-100 | The last three lines are logged. Erasing the files directory leaves the buffer alone, since the buffer lives in the cache directory. |
| ViewsMainActivity.ResetAnnouncesExit | app/src/main/java/com/draco/ladb/views/MainActivity.kt:99-100 | A poll of the buffer as the reset leaves it, with a window that can hold one line, ends with the exit notice. |
| ClientSetup.LastLineInWindow | app/src/main/java/com/draco/ladb/views/MainActivity.kt:307-309 | A tail window that can hold the last logged line ends with that line. |
| ClientSetup.DebugLinesSnoc | app/src/main/java/com/draco/ladb/views/MainActivity.kt:307-309 | Each logged message adds its line after those of the earlier messages. |
| LegacyMainActivity.ReadEndOfFile | app/src/main/java/com/draco/ladb/MainActivity.kt:135-149 | The read is a suffix of the file: all of it up to 4096 bytes, otherwise exactly 4096. |
| LegacyMainActivity.ReadEndOfFileAt | app/src/main/java/com/draco/ladb/MainActivity.kt:141-145 | A long file's window holds its bytes from offset `size - 4096` on. |
| LegacyMainActivity.MainActivity.constructor | app/src/main/java/com/draco/ladb/MainActivity.kt:74-77 | The buffer is a new, empty temporary file. Set-up starts idle with the latch at one, nothing logged and an empty output. |
| LegacyMainActivity.MainActivity.DebugMessage | app/src/main/java/com/draco/ladb/MainActivity.kt:244-246 | The message's `DEBUG: ` line, ending in a newline, is added at the end of the buffer file. |
| LegacyMainActivity.MainActivity.LaunchRedirected | app/src/main/java/com/draco/ladb/MainActivity.kt:248-266 | A process launched with `redirect` is recorded, and the buffer file is truncated by the redirection of its output into it. |
| LegacyMainActivity.MainActivity.StartOutputFeed | app/src/main/java/com/draco/ladb/MainActivity.kt:151-167 | The feed polls exactly until the file is first missing. The text is replaced exactly when the window read differs, and ends as the last window. |
| LegacyMainActivity.MainActivity.ShowIfChanged | app/src/main/java/com/draco/ladb/MainActivity.kt:154-158 | One poll replaces the text exactly when the window differs from it. |
| LegacyMainActivity.MainActivity.InitializeClient | app/src/main/java/com/draco/ladb/MainActivity.kt:169-212 | The output is cleared. When unpaired on any SDK level, the pairing request is logged, the dialog shows and set-up blocks while the latch is up. Otherwise `wait-for-device` and the shell follow, the device is marked paired, the steps are logged in order, and the buffer is left empty by the shell's redirection. |
| LegacyMainActivity.MainActivity.PairDialogConfirmed | app/src/main/java/com/draco/ladb/MainActivity.kt:214-242 | The request is logged, then `adb pair` is launched into the buffer, which that empties, and the latch counts down, whatever the outcome. |
| LegacyMainActivity.MainActivity.AwaitPairing | app/src/main/java/com/draco/ladb/MainActivity.kt:191-203 | Set-up stays blocked, with the buffer untouched, while the latch is up, then proceeds to `wait-for-device` and the shell. |
| LegacyMainActivity.MainActivity.ConnectAndShell | app/src/main/java/com/draco/ladb/MainActivity.kt:194-203 | Each step is logged before it is taken. `wait-for-device` runs before the device is marked paired, and then the shell starts redirected into the buffer, which is left empty. |
| Bookmarks.BelowIrreflexive | app/src/main/java/com/draco/ladb/recyclers/BookmarksRecyclerAdapter.kt:15 | No string sorts before itself. |
| Bookmarks.BelowTransitive | app/src/main/java/com/draco/ladb/recyclers/BookmarksRecyclerAdapter.kt:15 | The `compareTo` order is transitive. |
| Bookmarks.BelowTotal | app/src/main/java/com/draco/ladb/recyclers/BookmarksRecyclerAdapter.kt:15 | Any two different strings are ordered one way round. |
| Bookmarks.BelowAsymmetric | app/src/main/java/com/draco/ladb/recyclers/BookmarksRecyclerAdapter.kt:15 | Two strings are never each below the other. |
| Bookmarks.InsertElements | app/src/main/java/com/draco/ladb/recyclers/BookmarksRecyclerAdapter.kt:44-48 | `TreeSet.add` adds the element and keeps every other one. |
| Bookmarks.InsertLength | app/src/main/java/com/draco/ladb/recyclers/BookmarksRecyclerAdapter.kt:44-48 | The set grows by one exactly when the element is new. |
| Bookmarks.InsertSorted | app/src/main/java/com/draco/ladb/recyclers/BookmarksRecyclerAdapter.kt:44-48 | Insertion keeps the set ascending. |
| Bookmarks.InsertPresent | app/src/main/java/com/draco/ladb/recyclers/BookmarksRecyclerAdapter.kt:44-48 | Adding an element already present changes nothing. |
| Bookmarks.RemoveElements | app/src/main/java/com/draco/ladb/recyclers/BookmarksRecyclerAdapter.kt:51-55 | `TreeSet.remove` drops exactly that element. |
| Bookmarks.RemoveSorted | app/src/main/java/com/draco/ladb/recyclers/BookmarksRecyclerAdapter.kt:51-55 | Removal keeps the set ascending. |
| Bookmarks.RemoveAbsent | app/src/main/java/com/draco/ladb/recyclers/BookmarksRecyclerAdapter.kt:51-55 | Removing an absent element changes nothing. |
| Bookmarks.RemoveLength | app/src/main/java/com/draco/ladb/recyclers/BookmarksRecyclerAdapter.kt:51-55 | The set shrinks by one exactly when the element was there. |
| Bookmarks.SortedUnique | app/src/main/java/com/draco/ladb/recyclers/BookmarksRecyclerAdapter.kt:15 | Two ascending sequences holding the same strings are equal, so the sorted set is determined by its contents. |
| Bookmarks.SortedCount | app/src/main/java/com/draco/ladb/recyclers/BookmarksRecyclerAdapter.kt:80 | The set has as many distinct elements as positions. |
| Bookmarks.PositionRank | app/src/main/java/com/draco/ladb/recyclers/BookmarksRecyclerAdapter.kt:72-78 | The element at position `i` has exactly the elements before it below it. |
| Bookmarks.BookmarksRecyclerAdapter.constructor | app/src/main/java/com/draco/ladb/recyclers/BookmarksRecyclerAdapter.kt:15 | A new adapter has an empty list over the stored preferences. |
| Bookmarks.BookmarksRecyclerAdapter.UpdateList | app/src/main/java/com/draco/ladb/recyclers/BookmarksRecyclerAdapter.kt:29-34 | Afterwards the list holds exactly the stored bookmarks, whatever it held before. The views are told only when `refresh` is set. |
| Bookmarks.BookmarksRecyclerAdapter.SaveList | app/src/main/java/com/draco/ladb/recyclers/BookmarksRecyclerAdapter.kt:36-41 | The stored set becomes the list's contents. |
| Bookmarks.BookmarksRecyclerAdapter.Add | app/src/main/java/com/draco/ladb/recyclers/BookmarksRecyclerAdapter.kt:44-48 | The list holds its old elements plus the text, stays ascending, is unchanged when the text was present, and is saved and notified. |
| Bookmarks.BookmarksRecyclerAdapter.Delete | app/src/main/java/com/draco/ladb/recyclers/BookmarksRecyclerAdapter.kt:51-55 | Exactly the text leaves the list. An absent text changes nothing. The list is saved and notified. |
| Bookmarks.BookmarksRecyclerAdapter.Edit | app/src/main/java/com/draco/ladb/recyclers/BookmarksRecyclerAdapter.kt:58-63 | The old text is replaced by the new one. When the new text was already present beside the old, the two merge and the list shrinks by one. The list is saved and notified. |
| Bookmarks.BookmarksRecyclerAdapter.ItemCount | app/src/main/java/com/draco/ladb/recyclers/BookmarksRecyclerAdapter.kt:80 | The item count is the number of distinct bookmarks. |
| Bookmarks.BookmarksRecyclerAdapter.ElementAt | app/src/main/java/com/draco/ladb/recyclers/BookmarksRecyclerAdapter.kt:72-78 | The item at a position is the bookmark with exactly that many bookmarks below it. |
| BookmarksViewModel.BookmarksActivityViewModel.constructor | app/src/main/java/com/draco/ladb/viewmodels/BookmarksActivityViewModel.kt:15-17 | A fresh, empty adapter over the stored preferences. |
| BookmarksViewModel.BookmarksActivityViewModel.PrepareRecycler | app/src/main/java/com/draco/ladb/viewmodels/BookmarksActivityViewModel.kt:19-25 | The adapter ends holding exactly the stored bookmarks and is refreshed once. |
| BookmarksViewModel.BookmarksActivityViewModel.ConfirmAdd | app/src/main/java/com/draco/ladb/viewmodels/BookmarksActivityViewModel.kt:27-42 | Cancel, or done with empty text, changes nothing. Done with text adds it once. |
| BookmarksViewModel.BookmarksActivityViewModel.ConfirmEdit | app/src/main/java/com/draco/ladb/viewmodels/BookmarksActivityViewModel.kt:44-57 | Only a non-empty, changed text edits the bookmark. Any other close changes nothing. |

## Left out

- Process timing: the one-minute and ten-second `waitFor` limits, the five-second sleep before the pairing code, and the one-second DNS poll. A process is represented only by its outcome. The pairing code written to `adb pair`'s input is not modelled.
- The wireless-debugging and USB-debugging toggles that `initServer` flips through `Settings.Global`, and its waits on them (`utils/ADB.kt:133-182`, `utils/ADB.kt:317-390`). These are calls into the platform.
- `waitForDeathAndReset` (`utils/ADB.kt:395-408`): it blocks on the shell's exit and restarts the server. The view model's death watcher is counted, not run.
- Concurrency: `postValue`'s delay to the main thread, the `runOnUiThread` posts, the coroutines, the latch's threads and `NsdManager`'s callback threads. Each operation is modelled as an atomic step.
- `parseExpirationTime` (`utils/DnsDiscover.kt:151-163`): date parsing, supplied as an already-parsed `Option<int>`.
- `getLocalIpAddress` (`utils/DnsDiscover.kt:59-86`): network interfaces, supplied as an input.
- `debug` and `appendToOutput` in `utils/ADB.kt`, and the truncation of the buffer when `utils/ADB.kt` starts its redirected shell: the supervisor's writes to the buffer file are seen only by its pollers, through the snapshots.
- What the processes write to the buffer. It comes from outside and is seen only through the snapshots the pollers read. The activities' own `DEBUG:` lines are modelled, as bytes, with a newline for `System.lineSeparator()` as on Android.
- Interleaving with the reset: the shell that `adb kill-server` ends may log its death between the reset's lines. `Reset` states the buffer when no other writer runs.
- A failed process spawn: an `IOException` from `ProcessBuilder.start` (`utils/ADB.kt:466`) escapes `initServer` and `connectionAndStart` with `tryingToPair` still raised, after which `initServer` returns `Success` without doing anything. Exceptions are not modelled, so `InitServer` and `ConnectionAndStart` state the guard for normal exits only.
- Charset decoding: `String(bytes)` and a short `read` are not modelled. The output is the byte window.
- Numbers.ParseInt: Java's `parseInt` also accepts non-ASCII Unicode digits. The model accepts only `0`-`9`.
- Bookmarks.Below: Java orders strings by UTF-16 code units. The model compares characters.
- The piracy check, the `areYouSure` confirmation dialog, command entry and `executeFromScript`, and the share menu. These are user interface and third-party code with no state the core uses.
- `ProcessInfo` is not part of this model. The views activity's tail window is a constructor parameter.
- MainViewModel.MainActivityViewModel.RunOutputThread: the buffer-size setting is read once for the whole run, not once per poll.
- ViewsMainActivity.MainActivity.Reset: the deletion of the app's files directory is modelled only as not touching the buffer. The three-second sleep and `finishAffinity` are not modelled.
- The view model's `init`, which starts the output thread and discovery. Both are modelled on their own (`RunOutputThread`, `ScanAdbPorts`).
- MainViewModel.MainActivityViewModel.NeedsToPair: a predicate with no contract of its own. Its meaning is stated by `SetPairedBefore`.
- The pre-read of the startup command: the command is an input, with its default given by `StartupCommandSetting` and stated by `StartupCommandLast`.
