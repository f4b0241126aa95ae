# Home theater controller: verified model

A Dafny model of the stateful parts of the home theater automation system: the ESP32 firmware's display stack,
sensor arithmetic, firmware update, event pipeline, buttons and buzzer, and the Android client's version check,
release cache, reconnect protocol and command cooldown.

How the parts are modelled:

- Components that update static or instance fields are classes whose methods follow the code statement by
  statement. Each class has a `View` that turns its fields into a value, and each method says which step of a small
  value specification it takes. The theorems are lemmas over every run of those steps.
- The `History` modules, `UpdateChecks` and the last part of `WsClient` say what the state must be from the calls,
  events and answers alone, without naming a step of the specification, and prove that every run agrees.
- `EnvAccuracy` compares the integer compensation with the exact formula over the reals, in the form the BMP280
  datasheet gives in section 8.1.
- The display claims go through a model of the HD44780U controller (`Hd44780.dfy`, after the Hitachi datasheet):
  EN edges, interface width, nibble phase, address counter, DDRAM, CGRAM and display shift. A `Ui`'s view contains
  what that controller shows, so the screen theorems are about visible characters, not about what was sent.
- Bytes are integers from 0 to 255 and the C masks of the LCD driver are written with `/` and `%` (the parts joined
  by `|` are disjoint, so `|` is `+`). The expander port, where single bits matter, is an 8-bit vector.
- In the sensor arithmetic `>>` is floor division and the one C division truncates; `int32` and `int64` are types,
  so an overflowing step would be a verification error.
- The event pipeline is a transition system with one indivisible action per task step; its theorems hold for every
  interleaving. `WsTasks.dfy` is the code of the calls, tied to those steps.

Files: `Basics`, `Hd44780`, `LcdWire`, `LcdStartup`, `LcdScreen`, `LcdDriver`, `ScreenModel`, `ScreenHistory`, `Ui`,
`UiManager`, `PanelHistory` (display stack); `EnvSensor`, `EnvAccuracy`; `OtaUpdate`, `WsPipeline`, `PipelineHistory`,
`WsTasks`, `UpdateProgress` (update and events); `IoExpander`, `IoInput`, `SysInd` (panel); `Versions`,
`FirmwareUpdateManager`, `UpdateChecks`, `WsClient`, `MainViewModel`, `LockHistory` (client).
`dafny verify dfyconfig.toml` checks the project.

Assumptions. Display claims assume an error-free bus and calls that are not preempted inside a call; the
driver's contracts below them do not. FreeRTOS timers are reduced to: a started timer runs until it is stopped or,
if one-shot, fires. A flash write may fail at any time and must fail past the 0x1E0000 byte partition; ending an
image never written to fails. A receive returns a timeout, a failure, or at least one and at most the requested
number of bytes, and timeouts are finite. The HTTP server knows no websocket numbered -1, and adds and removes event
clients in one task.

Where the code and its documentation differ, the model follows the code:

- `ui.h` says that a temporary error restores the previous screen; over an error screen it restores the saved lines
  and ends the error. `ScreenModel.ErrorLasts` says exactly how long an error stays up.
- `lcd_driver.h` promises an error when there is no communication; only the first three nibbles are checked, and they
  alone leave the display in 8-bit mode (`LcdStartup.ResetLeavesEightBit`).
- `ws_queue.h` says the queue takes ownership of a heap block; the code copies the text and owns the copy.
- `sys_ind.h` describes the count as the number of beeps; a count of zero still beeps once.
- The update check ignores suffixes and skips components beyond Int range. Where no skipped
  component decides it departs from SemVer exactly when the latest version has the same core and a higher pre-release
  part (`Versions.AgreesWithSemVer`, `Versions.HigherVersionNotOffered`).
- A release body that does not parse leaves its ETag stored; fetches answered 304 are wrong until the next 200
  (`FirmwareUpdateManager.AnsweredFetchIsCurrent`).
- A client can be forgotten because of a send that was not for it (`WsPipeline.LatestClientSurvives`).
- The returned pressure is a cast of a signed value and wraps when that is negative (`EnvSensor.PressureAntitone`).

## Model

| member | source | states |
|---|---|---|
| `LcdWire.DecodeEncode` | esp32_firmware/components/lcd_driver/lcd_driver.c:14-39 | for every finite list of (byte, register select) transfers, latching the port on falling EN edges and pairing nibbles gives back exactly that list, with RW low on every strobe |
| `LcdWire.FeedEncode` | esp32_firmware/components/lcd_driver/lcd_driver.c:14-39 | the controller fed the encoded port writes ends in the state of executing the transfers one by one, again at a 4-bit byte boundary with EN low |
| `LcdWire.EncodeBacklit` | esp32_firmware/components/lcd_driver/lcd_driver.c:16-28 | every port byte of every transfer keeps the backlight line high |
| `LcdWire.LetterOnTheWire` | esp32_firmware/components/lcd_driver/lcd_driver.c:14-39 | the six port bytes of the letter A |
| `LcdWire.PhaseAfterPartialSend` | esp32_firmware/components/lcd_driver/lcd_driver.c:14-39 | a transfer cut off after k of its 6 port writes leaves the controller at a byte boundary iff k < 3, which is why display claims need an error-free bus |
| `LcdStartup.WakesFromAnyState` | esp32_firmware/components/lcd_driver/lcd_driver.c:50-62 | the start-up nibbles 3, 3, 3, 2 bring the controller to a 4-bit byte boundary from any prior state: 8-bit, 4-bit aligned, any half byte pending, EN high or low |
| `LcdStartup.ResetLeavesEightBit` | esp32_firmware/components/lcd_driver/lcd_driver.c:50-72 | the three nibbles whose results are checked leave 8-bit mode from any prior state, so success can be reported for a display that is not ready |
| `LcdStartup.InitFromAnyState` | esp32_firmware/components/lcd_driver/lcd_driver.c:43-73 | after the whole start-up stream the display is blank, two-line, unshifted, incrementing, with the address counter at DDRAM 0, whatever it did before |
| `LcdStartup.ConfigurationStaysDark` | esp32_firmware/components/lcd_driver/lcd_driver.c:64-69 | the five configuration bytes; the display is off from the second of them until the last, so old contents never show |
| `LcdScreen.DrawShows` | esp32_firmware/components/lcd_driver/lcd_driver.c:96-120 | cursor to a row start and at most 16 characters replace exactly the first columns of that visible row; the other row and all of CGRAM stay |
| `LcdScreen.DrawAtShows` | esp32_firmware/components/lcd_driver/lcd_driver.c:96-120 | from any column and any row argument: the text replaces exactly the columns it covers, on the second row for every row beyond the first |
| `LcdScreen.ClearShows` | esp32_firmware/components/lcd_driver/lcd_driver.c:108-113 | a clear blanks both visible rows, leaves CGRAM and the ready state, and points the address counter back into DDRAM |
| `LcdScreen.GlyphStored` | esp32_firmware/components/lcd_driver/lcd_driver.c:75-89 | defining a glyph fills exactly the eight CGRAM cells of its slot and leaves DDRAM |
| `LcdDriver.Lcd.WriteNibble` | esp32_firmware/components/lcd_driver/lcd_driver.c:14-32 | the acknowledged bytes are a prefix of the three port bytes of the nibble, all of them iff ok |
| `LcdDriver.Lcd.SendByte` | esp32_firmware/components/lcd_driver/lcd_driver.c:34-39 | the acknowledged bytes are a prefix of the six-byte encoding, all of it iff ok |
| `LcdDriver.Lcd.Init` | esp32_firmware/components/lcd_driver/lcd_driver.c:43-73 | false iff one of the first three nibbles was cut off, then a proper prefix was acknowledged; on an error-free bus exactly the start-up stream was |
| `LcdDriver.Lcd.Print` | esp32_firmware/components/lcd_driver/lcd_driver.c:96-106 | the acknowledged bytes are a prefix of the encoded string, all of it iff ok: printing stops at the first failure |
| `LcdDriver.Lcd.CreateChar` | esp32_firmware/components/lcd_driver/lcd_driver.c:75-89 | address command and eight rows, as a prefix up to the first failure |
| `LcdDriver.Lcd.SetCursor` | esp32_firmware/components/lcd_driver/lcd_driver.c:115-120 | exactly one DDRAM address command with the row clamped to the last of two |
| `ScreenModel.VisibleAgreesWithSaved` | esp32_firmware/components/ui/ui.c:18-39 | after any calls and timer firings: no overlay flag implies the visible rows are the saved lines; each saved line is the 16-column padding or cut of the last text set for its row, also under an overlay; the temporary flag implies a running timer |
| `ScreenModel.TimerEndsEveryOverlay` | esp32_firmware/components/ui/ui.c:24-28 | whatever happened before, a firing of the running timer ends both overlays and shows the saved lines |
| `ScreenModel.ErrorLasts` | esp32_firmware/components/ui/ui.c:24-28 | from any screen and over any calls without a new error, the error is still up iff they hold no restore and no firing of a timer that was running before or was started by a temporary error since; while it is up its rows are visible unless a later temporary error replaced them |
| `ScreenHistory.ScreenFollowsHistory` | esp32_firmware/components/ui/ui.c:24-232 | after any calls and firings from ui_init: the error flag is up iff some error was followed by no restore and no firing of the running timer; the timer runs and the temporary flag is up iff some accepted overlay was followed by no firing; the visible rows are those of the last call that drew. All three are read off the calls alone |
| `ScreenHistory.FiredTimerLeavesErrors` | esp32_firmware/components/ui/ui.c:55 | an error shown after a message has run out stays through later periods of the one-shot timer |
| `ScreenModel.ErrorCanBeCutShort` | esp32_firmware/components/ui/ui.c:100-137 | two runs: the timer of an earlier message wipes an error screen, and a temporary error overwrites one under its flag and then ends it |
| `ScreenModel.OverlayHidesText` | esp32_firmware/components/ui/ui.c:30-39 | under an overlay setting text changes the saved line only, and a restore or the timer then shows it |
| `ScreenModel.OverlayStaysVisible` | esp32_firmware/components/ui/ui.c:100-232 | an accepted overlay is what is visible through any amount of text set meanwhile; a message under an error is ignored |
| `ScreenModel.MessageRowsShowText` | esp32_firmware/components/ui/ui.c:181-202 | a message is shown as its first 32 characters followed by blanks, short or broken over two rows |
| `ScreenModel.CommandMessageRows` | esp32_firmware/components/ui/ui.c:234-239 | a command message always shows CMD: on the first row and the command, padded or cut, on the second |
| `ScreenModel.BarFills` | esp32_firmware/components/ui/ui.c:76-95 | the progress bar holds floor(16 * step / total) blocks after clamping, never shrinks as the step advances, and is full iff the step reaches the total |
| `ScreenModel.BarColumns` | esp32_firmware/components/ui/ui.c:78-95 | column i of the bar is the block character 0x01 iff (i + 1) * total <= 16 * step after clamping, else a space: it fills from the left |
| `ScreenModel.HexRoundTrip` | esp32_firmware/components/ui/ui.c:127-130 | the printed error code reads back as the code |
| `ScreenModel.MessageNeedsTimer` | esp32_firmware/components/ui/ui.c:198-209 | a message keeps "no overlay implies visible equals saved" iff the timer was created or the message is the saved lines |
| `Ui.Ui.Init` | esp32_firmware/components/ui/ui.c:43-59 | on an error-free bus: ready display, the full block in slot 1 and the degree sign in slot 2, blank screen, no overlay |
| `Ui.Ui.SetTextInRow` | esp32_firmware/components/ui/ui.c:30-39 | the new visible screen and saved lines are those of the specification step |
| `Ui.Ui.RestoreScreen` | esp32_firmware/components/ui/ui.c:67-74 | error flag cleared and both visible rows are the saved lines |
| `Ui.Ui.TimerExpires` | esp32_firmware/components/ui/ui.c:24-28 | a running timer stops, clears both flags and shows the saved lines; an idle one does nothing |
| `Ui.Ui.ShowBootProgress` | esp32_firmware/components/ui/ui.c:76-98 | sets the padded name and the bar of the clamped step as the two saved rows |
| `Ui.Ui.ShowError` | esp32_firmware/components/ui/ui.c:100-113 | visible rows are ERROR! and the padded or cut message; saved lines untouched |
| `Ui.Ui.ShowTempError` | esp32_firmware/components/ui/ui.c:115-137 | visible rows are the text and the full hexadecimal code, which always fits the row; timer started if it exists |
| `Ui.Ui.ShowTempMessage` | esp32_firmware/components/ui/ui.c:181-210 | ignored for no text or an error screen; otherwise the two message rows are visible and the timer runs |
| `Ui.Ui.ShowSplitTempMessage` | esp32_firmware/components/ui/ui.c:212-232 | ignored for a missing row or an error screen; otherwise both padded rows are visible and the timer runs |
| `Ui.BootAndRun` | esp32_firmware/components/ui/ui.c:43-232 | from any prior controller state, boot and any call sequence: the real visible rows are those of the last call that drew, the flags are those of the calls, and without an overlay the last texts show; icons never change |
| `UiManager.CarouselInvariant` | esp32_firmware/components/ui_manager/ui_manager.c:115-175 | after any run from an unsuspended init: the carousel timer runs iff auto mode and not suspended, and the page is the initial page plus the accepted advances modulo 6 |
| `UiManager.InitStartsCarousel` | esp32_firmware/components/ui_manager/ui_manager.c:126-136 | init establishes that invariant iff it runs unsuspended |
| `PanelHistory.PanelFollowsHistory` | esp32_firmware/components/ui_manager/ui_manager.c:115-175 | in every run suspension, mode (parity of the long presses that found no suspension), page, timer, its fresh periods, and the calls made to the screen are those read off the events alone; before init presses do nothing |
| `PanelHistory.LongPressSwitches` | esp32_firmware/components/ui_manager/ui_manager.c:138-154 | a long press in a run switches the mode and shows the name of the one it enters, unless an error is up; suspended it changes nothing |
| `PanelHistory.BeginShowsPage` | esp32_firmware/components/ui_manager/ui_manager.c:126-136 | init renders the current page and starts the timer |
| `UiManager.SuspendedShowsLatestBar` | esp32_firmware/components/ui_manager/ui_manager.c:164-175 | from suspension to the resume only progress calls change the saved lines: they are the latest bar, which is visible outside overlays |
| `UiManager.SuspendResume` | esp32_firmware/components/ui_manager/ui_manager.c:164-175 | a suspension and its resume give back page, mode and carousel, and show the freshly rendered page |
| `UiManager.Manager.SwitchMode` | esp32_firmware/components/ui_manager/ui_manager.c:138-154 | refused while suspended or before init; otherwise mode flipped, timer started afresh or stopped, message shown |
| `UiManager.Manager.ManualMode` | esp32_firmware/components/ui_manager/ui_manager.c:156-162 | refused while suspended or before init; otherwise next page rendered and the timer restarted in auto mode |
| `UiManager.Manager.AutoScroll` | esp32_firmware/components/ui_manager/ui_manager.c:115-122 | advances and renders only in unsuspended auto mode |
| `UiManager.Manager.Resume` | esp32_firmware/components/ui_manager/ui_manager.c:170-175 | unsuspends, restarts the timer in auto mode only, renders the current page |
| `EnvSensor.CalibrationRoundTrip` | esp32_firmware/components/env_sensor/env_sensor.c:39-50 | reading the stored little-endian block gives back all twelve calibration words with their signs |
| `EnvSensor.UnpackRoundTrip` | esp32_firmware/components/env_sensor/env_sensor.c:141-142 | unpacking three burst bytes is inverse to packing a 20-bit sample, whatever the unused low nibble |
| `EnvSensor.TemperatureInRange` | esp32_firmware/components/env_sensor/env_sensor.c:54-63 | inside the temperature envelope no int32 step overflows |
| `EnvSensor.TemperatureMonotone` | esp32_firmware/components/env_sensor/env_sensor.c:54-63 | inside the envelope, T2 at least 0x3FFE, t_fine and the temperature never fall as the ADC value rises, despite the floored square |
| `EnvAccuracy.TemperatureAccurate` | esp32_firmware/components/env_sensor/env_sensor.c:54-63 | inside the envelope the result is within a hundredth of a degree of the exact formula over the reals |
| `EnvSensor.SlopeBoundNeeded` | esp32_firmware/components/env_sensor/env_sensor.c:57-60 | that bound is the least: with T2 one below it one ADC step up can lower t_fine |
| `EnvSensor.PressureInRange` | esp32_firmware/components/env_sensor/env_sensor.c:65-83 | inside the pressure envelope every int64 step fits and the divisor is positive, whatever the sign of the numerator; the result is the corrected quotient, or 2^32 more if that is negative, which takes a negative numerator |
| `EnvAccuracy.PressureAccurate` | esp32_firmware/components/env_sensor/env_sensor.c:65-83 | inside the envelope, for every t_fine and ADC value, the result as a signed number is within 57/256 Pa of the exact formula over the reals |
| `EnvAccuracy.NoDivisorMeansZero` | esp32_firmware/components/env_sensor/env_sensor.c:74 | without P1 both the code and the exact formula give zero |
| `EnvSensor.CorrectedAntitone` | esp32_firmware/components/env_sensor/env_sensor.c:76-80 | inside the envelope, for any P8 and any sign of the numerator, the value before the cast never rises as the ADC value rises |
| `EnvSensor.PressureAntitone` | esp32_firmware/components/env_sensor/env_sensor.c:65-83 | inside the envelope the returned pressure does not rise as the ADC value rises iff the value before the cast does not turn from non-negative to negative on the way; with a non-negative numerator it does not |
| `EnvSensor.NegativePressureWraps` | esp32_firmware/components/env_sensor/env_sensor.c:80-82 | a calibration inside the envelope whose highest ADC value wraps round to more than sixteen million pascal |
| `EnvSensor.WorkedExample` | esp32_firmware/components/env_sensor/env_sensor.c:54-83 | the datasheet example lies in both envelopes and gives t_fine 128422, 25.08 degrees and 25767233 / 256 Pa |
| `EnvSensor.ArbitraryCalibrationOverflows` | esp32_firmware/components/env_sensor/env_sensor.c:54-83 | outside the envelopes some calibrations overflow |
| `EnvSensor.Bmp280.CompT` | esp32_firmware/components/env_sensor/env_sensor.c:54-63 | wherever no step overflows, the int32 code computes the temperature formula and stores t_fine |
| `EnvSensor.Bmp280.CompP` | esp32_firmware/components/env_sensor/env_sensor.c:65-83 | wherever no step overflows, the int64 code computes the pressure formula that the accuracy, range and monotonicity lemmas are about |
| `EnvSensor.EnvelopesDefineSample` | esp32_firmware/components/env_sensor/env_sensor.c:136-145 | a sample admitted by the two envelopes, the pressure one at the t_fine of that very sample, is computed without overflow |
| `EnvSensor.ReadSample` | esp32_firmware/components/env_sensor/env_sensor.c:135-150 | one burst: pressure bytes first, and the pressure uses the t_fine of the same sample; a failed burst changes neither the fields nor t_fine |
| `OtaUpdate.Session.Handle` | esp32_firmware/components/app_api/app_api_ota_update.c:42-130 | for every receive, write, end and switch answer: behind the first three exits the exit is the first failure answered, timeouts being none, so success iff there was none; written is a prefix of the body, all of it on success; the boot partition changes iff success; failing exits have resumed exactly once, success never; the handle is ended exactly once; events and bars are one for each new even percentage and each new multiple of five, plus the first and the last |
| `OtaUpdate.Session.Transfer` | esp32_firmware/components/app_api/app_api_ota_update.c:80-109 | the loop ends by (bytes left, timeouts left): ReceiveFailed iff some receive failed, WriteFailed iff some write failed, else the whole body is written |
| `OtaUpdate.Session.Report` | esp32_firmware/components/app_api/app_api_ota_update.c:97-108 | an event iff the block raised the percentage to an even one, a bar iff to a multiple of five, without int overflow |
| `OtaUpdate.Session.SendProgressEvent` | esp32_firmware/components/app_api/app_api_ota_update.c:26-36 | one event with the percentage, zero for an empty total |
| `OtaUpdate.ClimbingIsShort` | esp32_firmware/components/app_api/app_api_ota_update.c:100-108 | strictly increasing even percentages are at most 51 |
| `OtaUpdate.EventsClimb` | esp32_firmware/components/app_api/app_api_ota_update.c:97-108 | whatever the block sizes, those events climb strictly in even steps and reach 100 with the last byte |
| `OtaUpdate.TraceNeverGoesBack` | esp32_firmware/components/app_api/app_api_ota_update.c:97-126 | the percentages of one update, with the final 100, never go back and are at most 52 |
| `WsPipeline.EveryRunIsSafe` | esp32_firmware/components/ws_queue/ws_queue.c:29-52 | under every interleaving: live payloads are exactly those of in-flight producers, the queue (at most 10) and the dispatcher, pairwise different; each is freed at most once; accepted messages leave in FIFO order |
| `WsPipeline.QuiescentMeansFreed` | esp32_firmware/components/ws_dispatcher/ws_dispatcher.c:43-55 | once all tasks are idle and the queue is empty every payload ever allocated has been freed exactly once |
| `PipelineHistory.PipelineFollowsSteps` | esp32_firmware/components/ws_queue/ws_queue.c:29-52 | in every run, read off its steps alone: the queue accepted exactly the messages that found fewer than ten waiting, as copied; the active socket; and every frame that got through, with its message and socket |
| `WsPipeline.ReceivedIsSubsequenceOfOffered` | esp32_firmware/components/ws_dispatcher/ws_dispatcher.c:18-55 | the percentages any set of client sockets received are a subsequence of those the update offered, under drops, failed sends and client switches |
| `WsPipeline.FramesGoToRegisteredClients` | esp32_firmware/components/ws_dispatcher/ws_dispatcher.c:43-87 | in every run, also one in which the client changes between the two reads of the socket, frames go only to sockets some client registered |
| `WsPipeline.TurnResult` | esp32_firmware/components/ws_dispatcher/ws_dispatcher.c:18-55 | a turn nothing interleaves with frees exactly the oldest message, and either sends it to the active client, or leaves the client, or forgets it |
| `WsPipeline.UndisturbedTurnDelivers` | esp32_firmware/components/ws_dispatcher/ws_dispatcher.c:43-55 | left alone, a turn sends the oldest message to the active client and frees it |
| `WsPipeline.LatestClientSurvives` | esp32_firmware/components/ws_dispatcher/ws_dispatcher.c:18-87 | in every run the client registered last is still the active one iff since then it was not removed and no send failed, to it or to any other socket; otherwise no client is active |
| `WsPipeline.NewClientCanBeLost` | esp32_firmware/components/ws_dispatcher/ws_dispatcher.c:18-87 | a run in which a healthy new client is forgotten because the send to the old one failed |
| `WsPipeline.NewClientCanBeLostUnsent` | esp32_firmware/components/ws_dispatcher/ws_dispatcher.c:49-51 | a run in which it is forgotten without any frame: the old client left between the two reads of the socket |
| `WsTasks.Events.Send` | esp32_firmware/components/ws_queue/ws_queue.c:29-46 | accepted iff the queue exists, the copy was allocated and fewer than 10 messages wait; otherwise the copy is freed; the state change is the two producer steps |
| `WsTasks.Events.DispatcherTurn` | esp32_firmware/components/ws_dispatcher/ws_dispatcher.c:43-55 | one turn is the receive, the two checks, the second read of the socket, the send and the free, on the oldest message |
| `WsTasks.Events.AddClient` | esp32_firmware/components/ws_dispatcher/ws_dispatcher.c:68-78 | the new client becomes the active one; a different previous one is asked to close |
| `WsTasks.Events.RemoveClient` | esp32_firmware/components/ws_dispatcher/ws_dispatcher.c:80-87 | only the active client can clear the registration |
| `UpdateProgress.ClientNeverSeesProgressGoBack` | android_control_client/app/src/main/java/pl/miloszgilga/htas/client/viewmodel/MainViewModel.kt:422-428 | end to end, at any point of an update and under any interleaving: received percentages never go back, lie in 0..100, at most 52 |
| `MainViewModel.ScreenShowsLatest` | android_control_client/app/src/main/java/pl/miloszgilga/htas/client/viewmodel/MainViewModel.kt:212-233 | whatever replaces the update screen meanwhile: while it is up it shows the latest percentage received, 0 before the first |
| `MainViewModel.ScreenUpUnlessReplaced` | android_control_client/app/src/main/java/pl/miloszgilga/htas/client/viewmodel/MainViewModel.kt:220-250 | the update screen is up iff nothing has replaced it since it was opened or last brought back by a status text |
| `UpdateProgress.DisplayNeverGoesBack` | android_control_client/app/src/main/java/pl/miloszgilga/htas/client/viewmodel/MainViewModel.kt:422-428 | between any two moments of an update at which its screen is up, other screens in between or not, the percentage shown has not gone back |
| `UpdateProgress.ShowReceived` | android_control_client/app/src/main/java/pl/miloszgilga/htas/client/viewmodel/MainViewModel.kt:212-250 | opening, status texts, percentages and replacements move the screen as those theorems assume |
| `UpdateProgress.FinishedUpdateShowsFullBar` | esp32_firmware/components/app_api/app_api_ota_update.c:125 | after the completion call and until a resume the bottom row is a full bar outside overlays |
| `IoExpander.Drive` | esp32_firmware/components/io_expander/io_expander.c:52-66 | any calls with any bus failures: the latch shows on every output pin the per-pin fold of all calls up to the last successful one, failed ones included, and pins 5-7 high |
| `IoExpander.Expander.SetLevel` | esp32_firmware/components/io_expander/io_expander.c:52-66 | the request is remembered even when the write is lost; success makes every pin current; failure leaves the latch |
| `IoExpander.Expander.Commit` | esp32_firmware/components/io_expander/io_expander.c:15-26 | success puts shadow and input mask on the latch, failure changes nothing |
| `IoExpander.Expander.Init` | esp32_firmware/components/io_expander/io_expander.c:30-50 | ready iff mutex and first write succeed, then all pins high |
| `IoExpander.Expander.ReadPort` | esp32_firmware/components/io_expander/io_expander.c:68-84 | input pins read exactly what is outside: outputs can never make a button read as pressed |
| `IoInput.RunEmitsItsWorth` | esp32_firmware/components/io_input/io_input.c:34-46 | each maximal run of k pressed reads emits SHORT if k >= 1, LONG if k >= 40, FACTORY if k >= 100, once each, in that order, and its release nothing |
| `IoInput.ActionsAreRunsWorth` | esp32_firmware/components/io_input/io_input.c:34-46 | the whole output of a button is the concatenation of what its maximal runs are worth |
| `IoInput.ShortClicksCountRuns` | esp32_firmware/components/io_input/io_input.c:40 | a trace emits as many SHORT clicks as it has runs |
| `IoInput.HighPinIsSilent` | esp32_firmware/components/io_input/io_input.c:34-46 | a button whose pin nothing pulls low never acts, and its first low read is one SHORT |
| `IoInput.Input.PollOnce` | esp32_firmware/components/io_input/io_input.c:28-48 | every button is the one-button automaton on the successful reads of its own pin; failed polls change nothing |
| `SysInd.BacklightFollowsPresses` | esp32_firmware/components/io_button/io_button_handlers.c:36-43 | after any poll trace with failed reads, lost writes and calls of other tasks on other pins in between, the backlight is requested on iff its button was pressed an even number of times |
| `SysInd.Backlight.OnToggle` | esp32_firmware/components/io_button/io_button_handlers.c:36-43 | flag and requested level change together on a short click only, whatever the bus does |
| `SysInd.OnMenuClick` | esp32_firmware/components/io_button/io_button_handlers.c:30-34 | long toggles the mode, short turns the page, factory does neither |
| `SysInd.BeepsExactly` | esp32_firmware/components/sys_ind/sys_ind.c:46-58 | n >= 1 beeps: on for exactly n of the next 2n timer periods, then stopped and silent for good |
| `SysInd.OnIffCounterOdd` | esp32_firmware/components/sys_ind/sys_ind.c:46-58 | under any mix of firings and restarting calls: while the timer runs the buzzer is on iff the counter is odd; stopped means silent |
| `SysInd.ZeroBeepsStillBeep` | esp32_firmware/components/sys_ind/sys_ind.c:161-173 | a request for no beeps still sounds for one period, so the number made is the number asked iff that is at least one |
| `SysInd.Indicators.Init` | esp32_firmware/components/sys_ind/sys_ind.c:84-112 | with timers created exactly the red, green and orange LED are switched on and then off, even if the heartbeat task then fails; no other request is made |
| `SysInd.Indicators.BuzzerSound` | esp32_firmware/components/sys_ind/sys_ind.c:161-173 | restarts the sequence from any state and requests the pin low |
| `SysInd.Indicators.BuzzerCallback` | esp32_firmware/components/sys_ind/sys_ind.c:46-58 | one firing is one step of the beep automaton, with the pin request following the state |
| `Versions.GetHigherVersionOrNull` | android_control_client/app/src/main/java/pl/miloszgilga/htas/client/update/FirmwareUpdateManager.kt:210-229 | returns the cleaned latest version iff the parsed lists differ first in its favour on zero-padded lists, else null |
| `Versions.GreaterIsAsymmetric` | android_control_client/app/src/main/java/pl/miloszgilga/htas/client/update/FirmwareUpdateManager.kt:217-228 | the order is irreflexive and asymmetric |
| `Versions.GreaterIsTransitive` | android_control_client/app/src/main/java/pl/miloszgilga/htas/client/update/FirmwareUpdateManager.kt:217-228 | the order is transitive |
| `Versions.TiesAreEqualUpToZeros` | android_control_client/app/src/main/java/pl/miloszgilga/htas/client/update/FirmwareUpdateManager.kt:217-228 | neither is greater iff the lists are equal up to trailing zeros |
| `Versions.PrintedVersionParses` | android_control_client/app/src/main/java/pl/miloszgilga/htas/client/update/FirmwareUpdateManager.kt:200-215 | any printed list, with any v-like prefix and any pre-release or build suffix, parses to its components in Int range, hence back to itself iff all are |
| `Versions.AgreesWithSemVer` | android_control_client/app/src/main/java/pl/miloszgilga/htas/client/update/FirmwareUpdateManager.kt:200-229 | on all versions of SemVer 2.0.0: offered iff the core without its components beyond Int range is greater; as long as the deciding ones are in range, only a version higher by section 11 is offered, and offer and section 11 agree iff not (same core and the latest has the higher pre-release part) |
| `Versions.PreReleaseTies` | android_control_client/app/src/main/java/pl/miloszgilga/htas/client/update/FirmwareUpdateManager.kt:200-202 | versions with one core tie, of any size and with any suffixes; SemVer has them tie too iff neither pre-release part is higher |
| `Versions.HigherVersionNotOffered` | android_control_client/app/src/main/java/pl/miloszgilga/htas/client/update/FirmwareUpdateManager.kt:200-229 | v1.2.0 is not offered over v1.2.0-rc.1; v3000000000.0.0 is not offered over v2.0.0, but v2.0.0 is over it |
| `FirmwareUpdateManager.CoherentIffLastBodyKept` | android_control_client/app/src/main/java/pl/miloszgilga/htas/client/update/FirmwareUpdateManager.kt:164-182 | over any honest run, failed parses included: the stored ETag is that of the cached release iff the last 200 parsed, carried no tag or repeated the tag cached before it |
| `FirmwareUpdateManager.AnsweredFetchIsCurrent` | android_control_client/app/src/main/java/pl/miloszgilga/htas/client/update/FirmwareUpdateManager.kt:156-182 | over any such run from an empty cache: a parsed 200 returns the release the server holds then, and a 304 does iff that same condition holds; if every body parses it does |
| `FirmwareUpdateManager.RunStaysCoherent` | android_control_client/app/src/main/java/pl/miloszgilga/htas/client/update/FirmwareUpdateManager.kt:171-176 | while every body parses a stored ETag always is the tag of the cached release |
| `FirmwareUpdateManager.ParseFailureBreaksCoherence` | android_control_client/app/src/main/java/pl/miloszgilga/htas/client/update/FirmwareUpdateManager.kt:171-176 | after one 200 the cache is coherent, whatever it was before, iff the body parses, or it carried no tag, or the cache already held that tag |
| `FirmwareUpdateManager.ParseFailureServesStaleRelease` | android_control_client/app/src/main/java/pl/miloszgilga/htas/client/update/FirmwareUpdateManager.kt:165-176 | after a parse failure the next 304 returns the previous release |
| `UpdateChecks.ReceiveAll` | android_control_client/app/src/main/java/pl/miloszgilga/htas/client/update/FirmwareUpdateManager.kt:40-88 | after any checks, downloads, device versions, pauses, resumes and hides: pause, stored tag, cached release, both known versions and the banner are those read off the calls alone |
| `UpdateChecks.CheckedBannerIsCurrent` | android_control_client/app/src/main/java/pl/miloszgilga/htas/client/update/FirmwareUpdateManager.kt:48-59 | once both versions are known, an unpaused check leaves the banner at the comparison of the last answered release with the last device version |
| `FirmwareUpdateManager.Manager.FetchReleaseInfo` | android_control_client/app/src/main/java/pl/miloszgilga/htas/client/update/FirmwareUpdateManager.kt:156-182 | cache and result follow the reply: 304 returns the cache, 200 stores the tag first, anything else fails |
| `FirmwareUpdateManager.Manager.CheckIfUpdateNeeded` | android_control_client/app/src/main/java/pl/miloszgilga/htas/client/update/FirmwareUpdateManager.kt:204-208 | the banner becomes the version comparison of the two known versions, or stays while one is unknown |
| `FirmwareUpdateManager.Manager.PeriodicCheck` | android_control_client/app/src/main/java/pl/miloszgilga/htas/client/update/FirmwareUpdateManager.kt:48-59 | paused checks touch nothing; others fetch, keep the tag of the fetched release as latest version or the old one if there is none, and recompute the banner |
| `WsClient.EverySessionIsBounded` | android_control_client/app/src/main/java/pl/miloszgilga/htas/client/net/ws/WsClient.kt:50-119 | for every callback sequence: at most 2 Reconnecting events since a Connected, at most one Error or Disconnected, which closes the flow and is last |
| `WsClient.SessionFollowsCallbacks` | android_control_client/app/src/main/java/pl/miloszgilga/htas/client/net/ws/WsClient.kt:69-110 | in every session each callback up to the one that ends it delivers its own event, in order, and none after it does; which one ends it is read off the callbacks: a close, a failed set-up, a failure that is not I/O, a third I/O failure since the last opening |
| `WsClient.ConsecutiveFailures` | android_control_client/app/src/main/java/pl/miloszgilga/htas/client/net/ws/WsClient.kt:84-104 | k consecutive I/O failures close the session with an Error iff k exceeds the attempts left, and deliver one Reconnecting each before |
| `WsClient.OpeningRefills` | android_control_client/app/src/main/java/pl/miloszgilga/htas/client/net/ws/WsClient.kt:70-76 | an opening refills the attempts: two more failures survive, a third ends in Error |
| `WsClient.ClosedStaysClosed` | android_control_client/app/src/main/java/pl/miloszgilga/htas/client/net/ws/WsClient.kt:99-109 | nothing is delivered after the close |
| `WsClient.Client.OnFailure` | android_control_client/app/src/main/java/pl/miloszgilga/htas/client/net/ws/WsClient.kt:84-104 | retry scheduled iff the flow is open, the failure is I/O and attempts are left; otherwise Error and close |
| `MainViewModel.CooldownSeparatesCommands` | android_control_client/app/src/main/java/pl/miloszgilga/htas/client/viewmodel/MainViewModel.kt:187-206 | after an accepted command with cooldown on and short of a manual unlock, no command is accepted before ceil(1000 * D / 30) ticks, and the last of them unlocks |
| `MainViewModel.ProgressImpliesLocked` | android_control_client/app/src/main/java/pl/miloszgilga/htas/client/viewmodel/MainViewModel.kt:324-339 | in every run a non-empty cooldown bar implies a locked screen, and it stays within 0..1 |
| `LockHistory.LockFollowsEvents` | android_control_client/app/src/main/java/pl/miloszgilga/htas/client/viewmodel/MainViewModel.kt:166-206 | in every run the screen is locked iff a cooldown with refreshes left, started by an accepted command with cooldown on, or a toggle by hand locks it, and the bar is the share left; all read off the events alone |
| `MainViewModel.ViewModel.SendCommand` | android_control_client/app/src/main/java/pl/miloszgilga/htas/client/viewmodel/MainViewModel.kt:187-206 | accepted iff unlocked, not reconnecting and delivered; an accepted one starts the cooldown if enabled |
| `MainViewModel.ViewModel.CooldownTick` | android_control_client/app/src/main/java/pl/miloszgilga/htas/client/viewmodel/MainViewModel.kt:331-337 | one refresh of the countdown loop, with the unlock after the last |
| `MainViewModel.ViewModel.ToggleUiLock` | android_control_client/app/src/main/java/pl/miloszgilga/htas/client/viewmodel/MainViewModel.kt:180-185 | cancels the countdown, empties the bar and flips the lock |
| `MainViewModel.ViewModel.OnEnv` | android_control_client/app/src/main/java/pl/miloszgilga/htas/client/viewmodel/MainViewModel.kt:401-407 | the history is always the last min(n, 50) events in order |

## Left out

- Ui.Ui.Init: on a failing bus its contract only says that the driver calls were made; the code ignores most results and no screen claim is made.
- LcdDriver.Lcd.Init: on a failing bus nothing is said about the bytes after the first three nibbles, because the code does not check them.
- Ui.Ui.ShowBootProgress: requires that 16 times the clamped step fits an int; beyond that the C product is undefined.
- EnvSensor.Bmp280.CompT: requires that no int32 step overflows, which is undefined in C; the envelope lemma says when that is so.
- EnvSensor.Bmp280.CompP: requires that no int64 step overflows, likewise.
- EnvSensor.ReadSample: requires that no step overflows; the envelope lemma says when that is so. The conversion of the results to float is not modelled.
- Versions.AgreesWithSemVer: where the deciding core component is beyond Int range it gives the offer, not when that happens to agree with SemVer.
- WsClient.EverySessionIsBounded: covers one session; cleanup of an old session that overlaps a new one and overflow of the flow's 64-event buffer are not modelled.
- MainViewModel.CooldownSeparatesCommands: counts refresh ticks, not wall-clock time; the float bar is a real number.
- IoInput.Input.PollOnce: holds of 2^31 ms and more, where the int timer overflows, are excluded.
- UpdateProgress.ClientNeverSeesProgressGoBack: the list the update offers is a premise with the property `OtaUpdate.Session.Handle` establishes; the handler is not itself interleaved step by step.
- Execution times and delays of the display, the periods of timers beyond being started afresh, and timer command queues that are full.
- Preemption inside a UI call, and the carousel and message timers sharing one timer task.
- Display claims on a failing bus, beyond the prefix contracts and the nibble-phase lemma.
- The network dashboard formatting and the critical error loop: both end in a plain text update.
- Rendering of the carousel pages: time, sensor, heap and network strings come in as arguments.
- Floating-point conversion of sensor values, the AHT20 half of a reading and humidity.
- LED heartbeat, activity timers and Ethernet indicators: single-branch pin requests through the same expander call.
- The password reset button, password flows, NVS, storage, UART, Ethernet, NTP and HTTPS start-up.
- Command routing, JSON text and field names, REST errors, and the event name copied into a message.
- Downloading and hashing a firmware image in the client, the watchdog timer, pairing, QR codes and all screens.
- The heap's own failure inside a frame send is one flag; the JSON frame buffer is allocated and freed within that call.
