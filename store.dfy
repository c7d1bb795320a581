/**
 * The configuration store of the widget (src/utils.rs): a single record on disk
 * holding the milestone days already notified and the last window position,
 * loaded and saved in full on every access, plus the process-wide set that
 * mirrors the notified days and is seeded from the file on first use.
 */
module Store {
  import opened Wrappers

  /** Rust's `i32`, the type of window coordinates and screen metrics. */
  type I32 = x: int | -0x8000_0000 <= x < 0x8000_0000

  /** `WIDGET_POSITION`: the default position is this far from the bottom-right corner. */
  const WidgetOffsetX: int := 285
  const WidgetOffsetY: int := 150

  datatype Position = Position(x: I32, y: I32)
  datatype Notification = Notification(notified: seq<int>)
  datatype Config = Config(notification: Notification, position: Position)

  /**
   * What became of one `fs::write` of the configuration file. `OpenFailed`: the
   * file could not be opened or created, and keeps its old contents. `WriteFailed`:
   * the file was truncated but not completely written, so what it holds no longer
   * parses.
   */
  datatype WriteOutcome = Written | OpenFailed | WriteFailed

  /** Empty notified list and the `(0, 0)` "no position yet" sentinel. */
  function DefaultConfig(): Config {
    Config(Notification([]), Position(0, 0))
  }

  /**
   * `load_config`: the file slot is `None` when the file is missing, unreadable
   * or does not parse, and then the default record is used.
   */
  function LoadConfig(file: Option<Config>): (c: Config)
    ensures file.Some? ==> c == file.value
    ensures file.None? ==> c.notification.notified == [] && c.position == Position(0, 0)
  {
    match file
    case Some(stored) => stored
    case None => DefaultConfig()
  }

  /**
   * `save_config`: overwrite the whole file. It never reports failure; the outcome
   * only decides what the file holds afterwards.
   */
  function SaveConfig(file: Option<Config>, c: Config, outcome: WriteOutcome): (file': Option<Config>)
    ensures outcome == Written ==> LoadConfig(file') == c
    ensures outcome == OpenFailed ==> file' == file
    ensures outcome == WriteFailed ==> LoadConfig(file') == DefaultConfig()
  {
    match outcome
    case Written => Some(c)
    case OpenFailed => file
    case WriteFailed => None
  }

  /** The record with only its position replaced (`config.position = …`). */
  function WithPosition(c: Config, p: Position): (r: Config)
    ensures r.position == p
    ensures r.notification == c.notification
  {
    c.(position := p)
  }

  /** The record with `days` pushed onto its notified list (`notified.push(days)`). */
  function WithNotified(c: Config, days: int): (r: Config)
    ensures r.notification.notified == c.notification.notified + [days]
    ensures r.position == c.position
  {
    c.(notification := Notification(c.notification.notified + [days]))
  }

  /** The set of the elements of a list, as `into_iter().collect()` into a `HashSet`. */
  function Elems(s: seq<int>): (r: set<int>)
    ensures forall x :: x in r <==> x in s
    ensures |r| <= |s|
  {
    if s == [] then {} else Elems(s[..|s| - 1]) + {s[|s| - 1]}
  }

  /** The list holds no day twice. */
  predicate NoDuplicates(s: seq<int>) {
    forall i, j :: 0 <= i < j < |s| ==> s[i] != s[j]
  }

  /**
   * Saving the loaded record with a day the stored list does not hold keeps the
   * stored list free of duplicates, whatever the write does.
   */
  lemma SaveNewKeepsNoDuplicates(file: Option<Config>, d: int, outcome: WriteOutcome)
    requires NoDuplicates(LoadConfig(file).notification.notified)
    requires d !in Elems(LoadConfig(file).notification.notified)
    ensures NoDuplicates(LoadConfig(SaveConfig(file, WithNotified(LoadConfig(file), d), outcome)).notification.notified)
  {
    var s := LoadConfig(file).notification.notified;
    if outcome == Written {
      assert LoadConfig(SaveConfig(file, WithNotified(LoadConfig(file), d), outcome)).notification.notified == s + [d];
      forall i, j | 0 <= i < j < |s + [d]|
        ensures (s + [d])[i] != (s + [d])[j]
      {
        if j == |s| {
          assert s[i] in s;
        }
      }
    }
  }

  /** Two's-complement wrap-around of an `i32` subtraction in a release build. */
  function WrapI32(x: int): (r: I32)
    ensures (r - x) % 0x1_0000_0000 == 0
    ensures -0x8000_0000 <= x < 0x8000_0000 ==> r == x
  {
    (x + 0x8000_0000) % 0x1_0000_0000 - 0x8000_0000
  }

  /**
   * `load_position`: the stored position unless it is the `(0, 0)` sentinel, in
   * which case a default derived from the screen size (given here as inputs).
   */
  function LoadPosition(file: Option<Config>, screenWidth: I32, screenHeight: I32): (p: (I32, I32))
    ensures LoadConfig(file).position != Position(0, 0) ==>
      p == (LoadConfig(file).position.x, LoadConfig(file).position.y)
    ensures LoadConfig(file).position == Position(0, 0) ==>
      (p.0 - (screenWidth - WidgetOffsetX)) % 0x1_0000_0000 == 0
      && (p.1 - (screenHeight - WidgetOffsetY)) % 0x1_0000_0000 == 0
  {
    var c := LoadConfig(file);
    if c.position.x != 0 || c.position.y != 0 then (c.position.x, c.position.y)
    else (WrapI32(screenWidth - WidgetOffsetX), WrapI32(screenHeight - WidgetOffsetY))
  }

  /**
   * What `load_position` gives after `save_position(p)` wrote the file: `p` itself,
   * unless `p` is the sentinel `(0, 0)`, which reads back as the screen default.
   */
  lemma LoadPositionAfterSave(file: Option<Config>, p: Position, screenWidth: I32, screenHeight: I32)
    ensures var file' := SaveConfig(file, WithPosition(LoadConfig(file), p), Written);
      LoadPosition(file', screenWidth, screenHeight)
        == if p.x != 0 || p.y != 0 then (p.x, p.y)
           else (WrapI32(screenWidth - WidgetOffsetX), WrapI32(screenHeight - WidgetOffsetY))
  {
  }

  /**
   * Where nothing wraps, the default is the screen size less 285 and 150; it is
   * on screen only when the screen is at least that large.
   */
  lemma DefaultPositionWithoutWrap(file: Option<Config>, screenWidth: I32, screenHeight: I32)
    requires LoadConfig(file).position == Position(0, 0)
    requires screenWidth >= WidgetOffsetX - 0x8000_0000 && screenHeight >= WidgetOffsetY - 0x8000_0000
    ensures LoadPosition(file, screenWidth, screenHeight)
      == (screenWidth - WidgetOffsetX, screenHeight - WidgetOffsetY)
  {
  }

  /**
   * The process state behind src/utils.rs: the configuration file (as the record
   * it parses to, or `None`) and the `NOTIFIED_IDS` set, `None` until first used.
   */
  class ConfigStore {
    var file: Option<Config>
    var cache: Option<set<int>>

    /** Process start: whatever file is on disk, and a cache not yet seeded. */
    constructor (file: Option<Config>)
      ensures this.file == file && cache == None
      ensures Valid()
    {
      this.file := file;
      cache := None;
    }

    /** What `load_config` returns now. */
    function Loaded(): (c: Config)
      reads this
    {
      LoadConfig(file)
    }

    /** The notified set: the cache, or what seeding it now would give. */
    ghost function Fired(): (f: set<int>)
      reads this
    {
      if cache.Some? then cache.value else Elems(Loaded().notification.notified)
    }

    /**
     * Every day listed in the file is in the cache, so the cache never claims a
     * day is new when the file records it as notified.
     */
    ghost predicate Valid()
      reads this
    {
      cache.Some? ==> Elems(Loaded().notification.notified) <= cache.value
    }

    /** First access to `NOTIFIED_IDS`: seed it from the file, once. */
    method Seed()
      requires Valid()
      modifies this`cache
      ensures Valid()
      ensures cache == Some(old(Fired()))
    {
      if cache.None? {
        var config := LoadConfig(file);
        cache := Some(Elems(config.notification.notified));
      }
    }

    /** `save_position`: load, replace the position, save. */
    method SavePosition(p: Position, outcome: WriteOutcome)
      requires Valid()
      modifies this`file
      ensures Valid()
      ensures file == SaveConfig(old(file), WithPosition(old(Loaded()), p), outcome)
      ensures outcome == Written ==> Loaded().position == p
      ensures outcome != WriteFailed ==>
        Loaded().notification == old(Loaded()).notification && Fired() == old(Fired())
    {
      var config := LoadConfig(file);
      config := config.(position := p);
      file := SaveConfig(file, config, outcome);
    }

    /** `is_notificated`: seed the cache if need be and test membership. */
    method IsNotificated(id: int) returns (notified: bool)
      requires Valid()
      modifies this`cache
      ensures Valid()
      ensures cache == Some(old(Fired()))
      ensures notified <==> id in old(Fired())
    {
      Seed();
      notified := id in cache.value;
    }

    /**
     * `save_notification`: load, append `days`, add `days` to the cache whatever
     * the write does, save.
     */
    method SaveNotification(days: int, outcome: WriteOutcome)
      requires Valid()
      modifies this
      ensures Valid()
      ensures cache == Some(old(Fired()) + {days})
      ensures file == SaveConfig(old(file), WithNotified(old(Loaded()), days), outcome)
      ensures outcome == Written ==>
        Loaded().notification.notified == old(Loaded()).notification.notified + [days]
        && Loaded().position == old(Loaded()).position
      ensures old(Fired()) <= Fired() && days in Fired()
    {
      var config := LoadConfig(file);
      config := config.(notification := Notification(config.notification.notified + [days]));
      Seed();
      cache := Some(cache.value + {days});
      file := SaveConfig(file, config, outcome);
    }
  }
}
