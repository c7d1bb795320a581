/**
 * The parts of the widget's window layer (src/gui.rs) that carry state the
 * countdown engine reads or changes: the window's visibility, timer and
 * position, the two labels, the tray balloons shown, and the fixed text of
 * each milestone notification.
 */
module Gui {
  import opened Wrappers
  import Store

  /** Title of every tray balloon. */
  const BalloonTitle: string := "Aniversario 100 años - Esperanza en la Ciudad"

  const MonthText: string := "🎉¡Queda un mes para el gran aniversario!🎉"
  const WeekText: string := "⏳¡Queda solo 1 semana para celebrar los 100 años!⏳"
  const EveText: string := "🎊¡Mañana es el gran aniversario de los 100 años! 🎊"
  const HundredText: string := "🎉 ¡Feliz Aniversario de 100 AÑOS! 🥳"

  /** The day-to-text `match` of `create_notification`. */
  function NotificationMessage(days: int): (m: Option<string>)
    ensures m.Some? <==> days == 30 || days == 7 || days == 0 || days == 100
  {
    match days
    case 30 => Some(MonthText)
    case 7 => Some(WeekText)
    case 0 => Some(EveText)
    case 100 => Some(HundredText)
    case _ => None
  }

  /** The four milestone texts are pairwise different, so a balloon names its day. */
  lemma MessagesIdentifyDay(d1: int, d2: int)
    requires NotificationMessage(d1).Some? && NotificationMessage(d2).Some?
    requires NotificationMessage(d1) == NotificationMessage(d2)
    ensures d1 == d2
  {
  }

  /** One tray balloon: `tray.show(title, Some(text), None, Some(&icon))`. */
  datatype Balloon = Balloon(title: string, text: string)

  /** The tray icon, seen through the balloons it has shown, oldest first. */
  class Tray {
    var shown: seq<Balloon>

    constructor ()
      ensures shown == []
    {
      shown := [];
    }
  }

  /** The widget window: visibility, whether its 1000 ms timer runs, and its position. */
  class Window {
    var visible: bool
    var timerRunning: bool
    var position: (Store.I32, Store.I32)

    /** As `run` leaves it: built visible at the position it is given, timer started. */
    constructor (position: (Store.I32, Store.I32))
      ensures visible && timerRunning && this.position == position
    {
      visible := true;
      timerRunning := true;
      this.position := position;
    }
  }

  /** The `UI` record: the window and the two labels the countdown writes to. */
  class Ui {
    const window: Window
    var textLabel: string
    var countdownLabel: string

    constructor (window: Window)
      ensures this.window == window
      ensures textLabel == "Aniversario 100 años" && countdownLabel == "Loading ..."
    {
      this.window := window;
      textLabel := "Aniversario 100 años";
      countdownLabel := "Loading ...";
    }
  }

  /**
   * `toggle_timer`: `SetTimer` when `start`, `KillTimer` otherwise. The timer
   * afterwards runs exactly when `start` holds, whatever it did before, so
   * repeating a call changes nothing.
   */
  method ToggleTimer(window: Window, start: bool)
    modifies window`timerRunning
    ensures window.timerRunning == start
  {
    window.timerRunning := start;
  }

  /**
   * `create_notification`: show the balloon for `days`. Any day without a text
   * makes the program panic on `expect`, so callers must not pass one.
   */
  method CreateNotification(days: int, tray: Tray)
    requires NotificationMessage(days).Some?
    modifies tray
    ensures tray.shown == old(tray.shown) + [Balloon(BalloonTitle, NotificationMessage(days).value)]
  {
    var text := NotificationMessage(days);
    tray.shown := tray.shown + [Balloon(BalloonTitle, text.value)];
  }
}
