# Countdown and milestone notifications of the anniversary widget

This project models the engine behind a small Windows desktop widget that counts down to
a fixed anniversary instant (4 July 2026, 00:00 in Montevideo). On every 1000 ms timer tick
the widget computes the whole seconds left, splits them into days, hours, minutes and
seconds, and shows them as `"{days} días, HH:MM:SS"`, or as `"HH:MM:SS"` on the last day.
Once the instant has passed it shows `"Esperanza en la Ciudad"` and the title becomes
`"¡Feliz Aniversario!"`. When the whole-day count is exactly 30, 7 or 0, the widget shows a
tray balloon, but only once per milestone. To make that stick across restarts, it records
each notified day in `config.json`. The same file also stores the window position. A
process-wide set of notified days, seeded from the file on first use, answers the
"already notified?" question.

Modules, one per source file or component:

- `Wrappers` (`wrappers.dfy`): the `Option` datatype.
- `Store` (`store.dfy`, src/utils.rs): the `Config` / `Notification` / `Position` record.
  - `load_config`, `save_config`, `load_position`, `save_position`, `is_notificated` and
    `save_notification`.
  - The class `ConfigStore` holds the file slot (`Option<Config>`: `None` when the file is
    missing, unreadable or unparsable) and the `NOTIFIED_IDS` cache (`Option<set<int>>`,
    `None` until first use).
  - Its invariant `Valid()` says that every day listed in the file is in the cache once the
    cache is seeded. So the cache never reports a notified day as new.
- `Gui` (`gui.dfy`, src/gui.rs): the day-to-text table of
  `create_notification`, the balloons shown by the tray icon, the window (visibility, timer,
  position), the two labels, and `toggle_timer`.
- `Countdown` (`countdown.dfy`, the pure part of `countdown_time` in src/events.rs): the
  decomposition, the display text, and an independent reader of that text used as its
  partner. It also holds the milestone gate and a pure model of a series of ticks.
- `Events` (`events.dfy`, src/events.rs): `countdown_time`, `update_countdown_label`,
  `show_window` and `close_window` as methods over the objects above. Their effects are
  stated by the two-state predicates `MilestoneEffect` and `TickEffect`.

Inputs instead of foreign calls:

- There is no clock. The remaining time is an integer input: the whole-second count of
  chrono's `target - now`. Chrono normalises a duration to whole seconds (rounded down)
  plus a non-negative nanosecond part. So the exact duration is negative exactly when this
  count is, and for a non-negative duration it equals `num_seconds()`. The input therefore
  decides everything the source decides.
- The screen size (`GetSystemMetrics`) is a pair of parameters.
- Each write of the file is a `WriteOutcome` parameter:
  - `Written`: the write succeeded.
  - `OpenFailed`: the file could not be opened and keeps its old contents.
  - `WriteFailed`: `fs::write` had already truncated the file when it failed. What is left
    no longer parses.

Behaviour of the code worth noting:

- The balloon texts carry emoji. The table also has a fourth text, for day 100, which
  `countdown_time` can never select (`Events.GateHasMessage`).
- The file's notified list is a list, and only the cache is a set. A file edited from
  outside may list a day twice, but the program itself never writes a duplicate: the tick
  methods keep a duplicate-free list duplicate-free (`Store.SaveNewKeepsNoDuplicates`).
- `save_notification` adds the day to the cache before it saves, whatever the write does.
- A failed save does not always leave the file unchanged. A write that fails after
  truncating leaves a file that loads as the default, so every day already on disk is lost
  across a restart (`Events.TruncationForgetsAcrossRestart`). Either kind of failed write
  loses the day being added (`Events.FailedWriteForgetsAcrossRestart`).

Rust's `/` and `%` truncate toward zero and Dafny's are Euclidean. The two agree here
because the source divides only non-negative totals. The `i32` subtraction in
`load_position` wraps around in a release build, and `Store.WrapI32` writes that out.

## Model

| member | source | states |
|---|---|---|
| `Store.LoadConfig` | src/utils.rs:30-41 | the stored record when the file parses; otherwise an empty notified list and position `(0, 0)` |
| `Store.SaveConfig` | src/utils.rs:43-47 | after a successful write the file loads as the saved record; a failed open leaves the file as it was; a failed write leaves a file that loads as the default; no failure reaches the caller |
| `Store.WithPosition` | src/utils.rs:65 | only the position changes to the new value; the notification part is untouched |
| `Store.WithNotified` | src/utils.rs:83 | the day is appended to the notified list, duplicates allowed; the position is untouched |
| `Store.SaveNewKeepsNoDuplicates` | src/utils.rs:81-87 | saving the loaded record with a day the stored list does not hold leaves a stored list without duplicates, whatever the write does |
| `Store.Elems` | src/utils.rs:72 | collecting the list into a set keeps exactly its elements, so duplicates collapse and the set is no larger than the list |
| `Store.WrapI32` | src/utils.rs:60 | the `i32` result is congruent to the exact difference modulo 2^32, and equals it when it fits |
| `Store.LoadPosition` | src/utils.rs:51-61 | a stored position other than `(0, 0)` is returned as it is; for the sentinel `(0, 0)` each coordinate is the screen size minus 285 or 150, up to `i32` wrap-around |
| `Store.LoadPositionAfterSave` | src/utils.rs:51-67 | after `save_position(p)` is written, `load_position` gives `p` back, except for `p == (0, 0)`, which reads as the screen default |
| `Store.DefaultPositionWithoutWrap` | src/utils.rs:54-60 | when the stored position is the sentinel `(0, 0)` and nothing wraps, `load_position` gives `(width - 285, height - 150)` |
| `Store.ConfigStore.constructor` | src/utils.rs:70-74 | at process start the file is whatever is on disk and the cache is not yet seeded; the invariant holds |
| `Store.ConfigStore.Seed` | src/utils.rs:70-74 | the first access seeds the cache with the elements of the stored notified list; later accesses leave it alone |
| `Store.ConfigStore.SavePosition` | src/utils.rs:63-67 | read-modify-write: the file receives the loaded record with only the position replaced; unless the write truncates, the notified list and the notified set are unchanged; the cache is not touched; the invariant is kept |
| `Store.ConfigStore.IsNotificated` | src/utils.rs:76-79 | seeds the cache if needed; the answer is true exactly when the day is in the notified set; nothing is removed |
| `Store.ConfigStore.SaveNotification` | src/utils.rs:81-87 | the day joins the cache whatever the write does; the file receives the loaded record with the day appended; after a successful write the list grows by exactly that day and the position is unchanged; the set only grows |
| `Gui.NotificationMessage` | src/gui.rs:211-217 | a text exists exactly for days 30, 7, 0 and 100 |
| `Gui.MessagesIdentifyDay` | src/gui.rs:211-217 | the four texts are pairwise different, so a text determines its day |
| `Gui.CreateNotification` | src/gui.rs:210-225 | exactly one balloon is shown, with the fixed title and the day's text; a day without a text, on which the program panics, is excluded by the precondition |
| `Gui.ToggleTimer` | src/gui.rs:193-202 | afterwards the timer runs exactly when `start` holds, whatever it did before, so repeating a call changes nothing; nothing else about the window changes |
| `Gui.Tray.constructor` | src/gui.rs:131-176 | the tray icon starts having shown no balloon |
| `Gui.Window.constructor` | src/gui.rs:40-53 | the window starts visible, at the given position, with its timer running |
| `Gui.Ui.constructor` | src/gui.rs:100-127 | the title label starts as "Aniversario 100 años" and the countdown label as "Loading ..." |
| `Countdown.Decompose` | src/events.rs:100-104 | `days*86400 + hours*3600 + minutes*60 + seconds` is the total, with hours below 24 and minutes and seconds below 60 |
| `Countdown.Decimal` | src/events.rs:118 | the day count prints as a non-empty run of decimal digits with no leading zero |
| `Countdown.ParseDecimal` | src/events.rs:118 | reading the printed day count back gives the number |
| `Countdown.Pad2` | src/events.rs:118-120 | `{:02}` gives exactly two digits |
| `Countdown.Clock` | src/events.rs:118-120 | the clock part is 8 characters with colons at positions 2 and 5 |
| `Countdown.Format` | src/events.rs:117-121 | the text ends in a clock with colons 6 and 3 characters from the end; it is exactly the 8-character clock when there are no whole days, and longer otherwise |
| `Countdown.CountdownText` | src/events.rs:97-121 | a negative time gives the terminal text; a non-negative time gives a text ending in the clock, which is exactly 8 characters long when less than a day is left |
| `Countdown.ParseFormat` | src/events.rs:117-121 | reading either text form back (with or without the day count) gives the seconds that its parts add up to |
| `Countdown.CountdownTextRoundTrip` | src/events.rs:97-121 | reading the display text back gives exactly the remaining seconds when they are non-negative and no countdown for the terminal text; so two different non-negative times never show the same text |
| `Countdown.TerminalIffNegative` | src/events.rs:97-98 | the text is the terminal text if and only if the remaining time is negative |
| `Countdown.CountdownAtZero` | src/events.rs:117-121 | zero seconds shows `00:00:00` |
| `Countdown.CountdownTwoDays` | src/events.rs:117-121 | two days and 3661 seconds shows `2 días, 01:01:01` |
| `Countdown.CountdownThirtyDays` | src/events.rs:117-121 | exactly thirty days shows `30 días, 00:00:00` |
| `Countdown.Gate` | src/events.rs:100-107 | a milestone is checked exactly when the time is non-negative and the whole-day count is 30, 7 or 0, and the day checked is that count |
| `Countdown.GateByDayRange` | src/events.rs:100-107 | without division: the gate checks day `d` exactly when `d` is 30, 7 or 0 and the remaining time lies in `[d*86400, (d+1)*86400)` |
| `Countdown.AfterTick` | src/events.rs:106-115 | the notified set only grows, gains the checked milestone day and no other day, and is unchanged when no milestone is checked |
| `Countdown.SecondTickSilent` | src/events.rs:106-112 | after an evaluation on a milestone day, any later evaluation on the same whole day (say, at the next tick a second later) does not notify |
| `Countdown.RunSnoc` | src/events.rs:106-115 | one more tick at the end of a series adds its own notification last, computed against the notified set the series left |
| `Countdown.RunNotifiesOnce` | src/events.rs:106-115 | over any series of ticks, every notified day is a milestone not notified before, no day is notified twice, every milestone day some tick reached is notified or was already, and the notified set at the end is exactly the starting set plus the days notified |
| `Events.GateHasMessage` | src/events.rs:106-111 | every day the gate lets through has a balloon text and it is never the day-100 text, so that branch of the table is dead |
| `Events.NotifyMilestone` | src/events.rs:107-113 | on a milestone day: the day joins the notified set; if it was new, the file receives it (as the outcome allows) and its balloon is shown; otherwise file and tray are unchanged; a stored list without duplicates stays without duplicates |
| `Events.MatchDays` | src/events.rs:106-115 | given the gate's verdict on the day count, the tick's whole effect: the milestone effect on a milestone day, no change to notified set, file or tray on any other day; the store invariant is kept; a stored list without duplicates stays without duplicates |
| `Events.CountdownTime` | src/events.rs:92-123 | the returned text is the display text for the remaining time; for a negative time, or a day that is not a milestone, nothing else changes; otherwise the milestone effect above; the store invariant is kept; a stored list without duplicates stays without duplicates |
| `Events.UpdateCountdownLabel` | src/events.rs:81-89 | the countdown label shows the text; the title changes to "¡Feliz Aniversario!" exactly when the target has passed, and stays as it was otherwise; plus the effect of one evaluation; a stored list without duplicates stays without duplicates |
| `Events.OnTimerTick` | src/events.rs:29 | one timer tick: the countdown label shows the text and the title switches to the greeting exactly when the target has passed, the notified set becomes the one-tick update, and the tray shows one balloon exactly when the tick notifies a new milestone day, with that day's text |
| `Events.TimerTicks` | src/events.rs:29 | over a series of timer ticks, the notified set is the one the pure series gives, and the balloons shown are those of the days `Run` notifies, in order, so no balloon shows twice (`Events.RunBalloonsDistinct`) |
| `Events.BalloonsIndex` | src/gui.rs:210-225 | for milestone days, one balloon per day, in the same order, each with the fixed title and that day's text |
| `Events.RunBalloonsDistinct` | src/events.rs:106-115 | over any series of ticks, the balloons of the notified days are pairwise different, because the days are and each text names its day |
| `Events.ShowWindow` | src/events.rs:58-64 | visibility flips, and the timer runs exactly when the window is now visible; the position is unchanged |
| `Events.CloseWindow` | src/events.rs:67-71 | the timer stops, visibility and position stay, and the file receives the loaded record with the window's position replacing the stored one |
| `Events.RestartRemembersMilestone` | src/utils.rs:70-87 | once a milestone day has been written, a cache seeded from that file on restart holds it, so the milestone does not fire again |
| `Events.FailedWriteForgetsAcrossRestart` | src/utils.rs:81-87 | when the write of a day the file does not yet list fails, by a failed open or by truncation, a restarted process fires that milestone again: the accepted data-loss window |
| `Events.TruncationForgetsAcrossRestart` | src/utils.rs:43-47 | a write that fails after truncating leaves a file whose notified list is empty, so after a restart every milestone fires again, including days notified earlier |

## Left out

- The clock and the target: `Utc::now()`, the Montevideo time-zone conversion, the target
  date and the `unwrap` on it. The remaining whole seconds are an input.
- JSON serialisation with `serde_json`. The file is modelled as the record it parses to.
  Serialising and parsing back is taken to give the same record.
- `Mutex` and `Lazy`. The cache is a plain field that is seeded on first access. A
  poisoned lock (`unwrap`/`expect` panics) is not modelled, because the program has one
  thread.
- The integer width of days and notified entries (`i64`). The remaining seconds fit an
  `i64`, and `/` and `%` on them cannot overflow. Widths matter only for positions, which
  are `I32`.
- Changes to `config.json` by any other process.
- `Gui.ToggleTimer`: states only whether the timer runs, not that `SetTimer` on a running
  timer restarts its 1000 ms period.
- The OS timer's dispatch of ticks and the rest of the event-binding closure. This includes
  the `OnWindowClose` position save and the menu wiring. The `OnTimerTick` arm is modelled
  (`Events.OnTimerTick`), and a series of ticks is its repetition (`Events.TimerTicks`).
- `Events.OnTimerTick`: does not restate the file write of the tick; `Events.UpdateCountdownLabel`,
  which it calls, states it.
- `Events.TimerTicks`: states the labels and the file only per tick, in
  `Events.OnTimerTick` and `Events.UpdateCountdownLabel`, and not after the whole series.
- `stop_thread_dispatch` in `close_window`, which ends the message loop.
- Building the embedded notification icon and the panic when that fails.
- The `i32` subtraction in `load_position` follows a release build, where it wraps around.
  A debug build panics on overflow instead, and the model does not capture that panic.
- Window, label, font, bitmap and tray construction (`run`, `create_ui`, `create_tray`),
  beyond the initial state their constructors record.
- `round_window`, `move_window`, `show_menu`, `autostart_app`, and the modules
  src/autostart.rs and src/main.rs. These are foreign OS calls with no logic of their own.
