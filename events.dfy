/**
 * The event handlers of src/events.rs that drive the countdown engine: one
 * timer tick (`update_countdown_label` and `countdown_time`), and the tray
 * menu's show/hide and close actions.
 */
module Events {
  import opened Wrappers
  import opened Store
  import opened Countdown
  import Gui

  /** The title label's text once the anniversary has arrived. */
  const FestiveTitle: string := "¡Feliz Aniversario!"

  /**
   * What the `30 | 7 | 0` arm of `countdown_time` does on milestone day `days`:
   * the day joins the notified set and, when it was not there before, it is
   * appended to the file (as the write outcome allows) and its balloon is shown.
   */
  twostate predicate MilestoneEffect(store: ConfigStore, tray: Gui.Tray, days: int, outcome: WriteOutcome)
    requires IsMilestone(days)
    reads store, tray
  {
    && store.cache == Some(old(store.Fired()) + {days})
    && (if days !in old(store.Fired()) then
          && store.file == SaveConfig(old(store.file), WithNotified(old(store.Loaded()), days), outcome)
          && tray.shown == old(tray.shown) + [Gui.Balloon(Gui.BalloonTitle, Gui.NotificationMessage(days).value)]
        else
          store.file == old(store.file) && tray.shown == old(tray.shown))
  }

  /**
   * What one evaluation of `countdown_time` does to the notified set, the file
   * and the tray, for `remaining` whole seconds and the outcome of any write:
   * nothing at all unless the gate lets a milestone day through.
   */
  twostate predicate TickEffect(store: ConfigStore, tray: Gui.Tray, remaining: int, outcome: WriteOutcome)
    reads store, tray
  {
    && store.Fired() == AfterTick(old(store.Fired()), remaining)
    && match Gate(remaining)
       case None =>
         store.cache == old(store.cache) && store.file == old(store.file) && tray.shown == old(tray.shown)
       case Some(days) => MilestoneEffect(store, tray, days, outcome)
  }

  /**
   * What `update_countdown_label` does to the two labels: the countdown label
   * shows the text, and the title becomes the greeting once the target has
   * passed and stays as it was otherwise.
   */
  twostate predicate LabelEffect(ui: Gui.Ui, remaining: int)
    reads ui
  {
    && ui.countdownLabel == CountdownText(remaining)
    && ui.textLabel == if remaining < 0 then FestiveTitle else old(ui.textLabel)
  }

  /** A day the gate lets through always has a balloon text, and it is never the 100-year one. */
  lemma GateHasMessage(remaining: int)
    requires Gate(remaining).Some?
    ensures Gui.NotificationMessage(Gate(remaining).value).Some?
    ensures Gui.NotificationMessage(Gate(remaining).value).value != Gui.HundredText
  {
  }

  /** The `30 | 7 | 0` arm of the `match days` block of `countdown_time`. */
  method NotifyMilestone(days: int, tray: Gui.Tray, store: ConfigStore, outcome: WriteOutcome)
    requires IsMilestone(days) && store.Valid()
    modifies store, tray
    ensures store.Valid()
    ensures MilestoneEffect(store, tray, days, outcome)
    ensures NoDuplicates(old(store.Loaded().notification.notified)) ==>
      NoDuplicates(store.Loaded().notification.notified)
  {
    ghost var fired := store.Fired();
    ghost var listed := store.Loaded().notification.notified;
    assert Elems(listed) <= fired;
    var notified := store.IsNotificated(days);
    if !notified {
      assert days !in Elems(listed);
      if NoDuplicates(listed) {
        SaveNewKeepsNoDuplicates(store.file, days, outcome);
      }
      store.SaveNotification(days, outcome);
      Gui.CreateNotification(days, tray);
    } else {
      assert fired + {days} == fired;
    }
  }

  /**
   * The `match days` block of `countdown_time`, for the day count `days` of
   * `remaining` whole seconds: only the milestone arm does anything.
   */
  method MatchDays(remaining: int, days: int, tray: Gui.Tray, store: ConfigStore, outcome: WriteOutcome)
    requires store.Valid()
    requires Gate(remaining) == if IsMilestone(days) then Some(days) else None
    modifies store, tray
    ensures store.Valid()
    ensures TickEffect(store, tray, remaining, outcome)
    ensures NoDuplicates(old(store.Loaded().notification.notified)) ==>
      NoDuplicates(store.Loaded().notification.notified)
  {
    ghost var fired := store.Fired();
    if days == 30 || days == 7 || days == 0 {
      NotifyMilestone(days, tray, store, outcome);
      assert store.Fired() == fired + {days} == AfterTick(fired, remaining);
    } else {
      assert Gate(remaining).None?;
    }
  }

  /**
   * `countdown_time`: compute the text and, on a milestone day not yet notified,
   * record the day and show its balloon.
   */
  method CountdownTime(remaining: int, tray: Gui.Tray, store: ConfigStore, outcome: WriteOutcome)
    returns (text: string)
    requires store.Valid()
    modifies store, tray
    ensures store.Valid()
    ensures text == CountdownText(remaining)
    ensures TickEffect(store, tray, remaining, outcome)
    ensures NoDuplicates(old(store.Loaded().notification.notified)) ==>
      NoDuplicates(store.Loaded().notification.notified)
  {
    if remaining < 0 {
      text := TerminalText;
    } else {
      var p := Decompose(remaining);
      var days := p.days;
      GateOfParts(remaining);
      MatchDays(remaining, days, tray, store, outcome);
      text := Format(p);
    }
  }

  /**
   * `update_countdown_label`: put the countdown text in its label and, when it is
   * the terminal text, switch the title to the anniversary greeting.
   */
  method UpdateCountdownLabel(ui: Gui.Ui, tray: Gui.Tray, store: ConfigStore, remaining: int, outcome: WriteOutcome)
    requires store.Valid()
    modifies ui, store, tray
    ensures store.Valid()
    ensures LabelEffect(ui, remaining)
    ensures TickEffect(store, tray, remaining, outcome)
    ensures NoDuplicates(old(store.Loaded().notification.notified)) ==>
      NoDuplicates(store.Loaded().notification.notified)
  {
    var text := CountdownTime(remaining, tray, store, outcome);
    ui.countdownLabel := text;
    TerminalIffNegative(remaining);
    if text == TerminalText {
      ui.textLabel := FestiveTitle;
    }
  }

  /** `show_window`: flip visibility; the timer runs exactly while the window shows. */
  method ShowWindow(ui: Gui.Ui)
    modifies ui.window
    ensures ui.window.visible == !old(ui.window.visible)
    ensures ui.window.timerRunning == ui.window.visible
    ensures ui.window.position == old(ui.window.position)
  {
    var visible := !ui.window.visible;
    ui.window.visible := visible;
    Gui.ToggleTimer(ui.window, visible);
  }

  /** `close_window`: stop the timer and save the window's position. */
  method CloseWindow(window: Gui.Window, store: ConfigStore, outcome: WriteOutcome)
    requires store.Valid()
    modifies window, store
    ensures !window.timerRunning
    ensures window.visible == old(window.visible) && window.position == old(window.position)
    ensures store.Valid() && store.cache == old(store.cache)
    ensures store.file == SaveConfig(old(store.file),
      WithPosition(old(store.Loaded()), Position(window.position.0, window.position.1)), outcome)
  {
    Gui.ToggleTimer(window, false);
    store.SavePosition(Position(window.position.0, window.position.1), outcome);
  }

  /** The balloons shown for a series of notified days, in order. */
  function BalloonsOf(days: seq<int>): (b: seq<Gui.Balloon>)
    decreases |days|
  {
    if days == [] then []
    else
      BalloonsOf(days[..|days| - 1])
      + match Gui.NotificationMessage(days[|days| - 1])
        case Some(text) => [Gui.Balloon(Gui.BalloonTitle, text)]
        case None => []
  }

  lemma BalloonsSnoc(days: seq<int>, d: int)
    ensures BalloonsOf(days + [d]) == BalloonsOf(days) + BalloonsOf([d])
  {
    assert (days + [d])[..|days|] == days;
  }

  /** The balloon of one milestone day. */
  lemma BalloonOfMilestone(days: int)
    requires IsMilestone(days)
    ensures BalloonsOf([days]) == [Gui.Balloon(Gui.BalloonTitle, Gui.NotificationMessage(days).value)]
  {
    assert [days][..0] == [];
  }

  /** For milestone days, one balloon per day, in the same order, with that day's text. */
  lemma {:induction false} BalloonsIndex(days: seq<int>)
    requires forall i :: 0 <= i < |days| ==> IsMilestone(days[i])
    ensures |BalloonsOf(days)| == |days|
    ensures forall i :: 0 <= i < |days| ==>
      && Gui.NotificationMessage(days[i]).Some?
      && BalloonsOf(days)[i] == Gui.Balloon(Gui.BalloonTitle, Gui.NotificationMessage(days[i]).value)
    decreases |days|
  {
    if days != [] {
      var init, d := days[..|days| - 1], days[|days| - 1];
      assert days == init + [d];
      BalloonsIndex(init);
      BalloonsSnoc(init, d);
      BalloonOfMilestone(d);
      var b := BalloonsOf(days);
      assert b == BalloonsOf(init) + [Gui.Balloon(Gui.BalloonTitle, Gui.NotificationMessage(d).value)];
      forall i | 0 <= i < |days|
        ensures Gui.NotificationMessage(days[i]).Some?
        ensures b[i] == Gui.Balloon(Gui.BalloonTitle, Gui.NotificationMessage(days[i]).value)
      {
        if i < |init| {
          assert days[i] == init[i];
        }
      }
    }
  }

  /** Over any series of ticks, no balloon is shown twice. */
  lemma RunBalloonsDistinct(fired: set<int>, ticks: seq<int>)
    ensures forall i, j :: 0 <= i < j < |BalloonsOf(Run(fired, ticks))| ==>
      BalloonsOf(Run(fired, ticks))[i] != BalloonsOf(Run(fired, ticks))[j]
  {
    var notes := Run(fired, ticks);
    RunNotifiesOnce(fired, ticks);
    BalloonsIndex(notes);
    var b := BalloonsOf(notes);
    forall i, j | 0 <= i < j < |b|
      ensures b[i] != b[j]
    {
      if b[i] == b[j] {
        Gui.MessagesIdentifyDay(notes[i], notes[j]);
      }
    }
  }

  lemma PrefixSnoc(ticks: seq<int>, i: nat)
    requires i < |ticks|
    ensures ticks[..i + 1] == ticks[..i] + [ticks[i]]
  {
  }

  /** One more tick extends the balloons of a series of ticks by that tick's own. */
  lemma ShownSnoc(fired: set<int>, done: seq<int>, r: int, base: seq<Gui.Balloon>, after: seq<Gui.Balloon>)
    requires after == base + BalloonsOf(Run(fired, done)) +
      if Fires(FiredAfter(fired, done), r) then BalloonsOf([Gate(r).value]) else []
    ensures after == base + BalloonsOf(Run(fired, done + [r]))
    ensures FiredAfter(fired, done + [r]) == AfterTick(FiredAfter(fired, done), r)
  {
    RunSnoc(fired, done, r);
    var before := BalloonsOf(Run(fired, done));
    if Fires(FiredAfter(fired, done), r) {
      BalloonsSnoc(Run(fired, done), Gate(r).value);
      assert BalloonsOf(Run(fired, done + [r])) == before + BalloonsOf([Gate(r).value]);
      assert after == base + (before + BalloonsOf([Gate(r).value]));
    } else {
      assert Run(fired, done + [r]) == Run(fired, done) + [] == Run(fired, done);
      assert after == base + before + [] == base + before;
    }
  }

  /**
   * The `OnTimerTick` arm of the event handler: one call of
   * `update_countdown_label`, read as its effect on the notified set and the
   * balloons shown.
   */
  method OnTimerTick(ui: Gui.Ui, tray: Gui.Tray, store: ConfigStore, remaining: int, outcome: WriteOutcome)
    requires store.Valid()
    modifies ui, store, tray
    ensures store.Valid()
    ensures LabelEffect(ui, remaining)
    ensures store.Fired() == AfterTick(old(store.Fired()), remaining)
    ensures tray.shown == old(tray.shown) +
      if Fires(old(store.Fired()), remaining) then BalloonsOf([Gate(remaining).value]) else []
  {
    ghost var fired := store.Fired();
    UpdateCountdownLabel(ui, tray, store, remaining, outcome);
    match Gate(remaining)
    case Some(days) =>
      assert MilestoneEffect(store, tray, days, outcome);
      if days !in fired {
        BalloonOfMilestone(days);
      }
    case None =>
  }

  /**
   * The `OnTimerTick` events of one run of the widget, in order: `ticks` are the
   * remaining times at successive ticks and `outcomes` the outcome of any write at
   * each. The notified set and the balloons shown follow `FiredAfter` and `Run`,
   * so by `RunNotifiesOnce` each milestone day shows its balloon at most once.
   */
  method TimerTicks(ui: Gui.Ui, tray: Gui.Tray, store: ConfigStore, ticks: seq<int>, outcomes: seq<WriteOutcome>)
    requires store.Valid() && |outcomes| == |ticks|
    modifies ui, store, tray
    ensures store.Valid()
    ensures store.Fired() == FiredAfter(old(store.Fired()), ticks)
    ensures tray.shown == old(tray.shown) + BalloonsOf(Run(old(store.Fired()), ticks))
  {
    ghost var fired0 := store.Fired();
    var i := 0;
    while i < |ticks|
      invariant 0 <= i <= |ticks|
      invariant store.Valid()
      invariant store.Fired() == FiredAfter(fired0, ticks[..i])
      invariant tray.shown == old(tray.shown) + BalloonsOf(Run(fired0, ticks[..i]))
    {
      var r := ticks[i];
      ghost var done := ticks[..i];
      PrefixSnoc(ticks, i);
      OnTimerTick(ui, tray, store, r, outcomes[i]);
      ShownSnoc(fired0, done, r, old(tray.shown), tray.shown);
      assert store.Fired() == FiredAfter(fired0, done + [r]);
      i := i + 1;
    }
    assert ticks[..|ticks|] == ticks;
  }

  /**
   * Across a restart: once a milestone's day was written to the file, a cache
   * seeded from that file already holds it, so the milestone does not fire again.
   */
  lemma RestartRemembersMilestone(file: Option<Config>, remaining: int)
    requires Gate(remaining).Some?
    ensures var file' := SaveConfig(file, WithNotified(LoadConfig(file), Gate(remaining).value), Written);
      !Fires(Elems(LoadConfig(file').notification.notified), remaining)
  {
  }

  /**
   * The accepted data-loss window: when the write of a day the file does not yet
   * list fails, in either way, a restart seeds a cache without the day and the
   * milestone fires again.
   */
  lemma FailedWriteForgetsAcrossRestart(file: Option<Config>, remaining: int, outcome: WriteOutcome)
    requires Gate(remaining).Some? && outcome != Written
    requires Gate(remaining).value !in Elems(LoadConfig(file).notification.notified)
    ensures var file' := SaveConfig(file, WithNotified(LoadConfig(file), Gate(remaining).value), outcome);
      Fires(Elems(LoadConfig(file').notification.notified), remaining)
  {
  }

  /**
   * A write that fails after truncating loses every day already on disk, not
   * only the one being added: after a restart every milestone day fires again.
   */
  lemma TruncationForgetsAcrossRestart(file: Option<Config>, c: Config, remaining: int)
    requires Gate(remaining).Some?
    ensures Elems(LoadConfig(SaveConfig(file, c, WriteFailed)).notification.notified) == {}
    ensures Fires(Elems(LoadConfig(SaveConfig(file, c, WriteFailed)).notification.notified), remaining)
  {
  }
}
