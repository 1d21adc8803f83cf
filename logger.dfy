// Level-filtered logging: a message is printed only when its level is at
// least the logger's own level and at least the process-wide level.
module Logging {
  import opened Common
  import JavaLang

  datatype Level = DEBUG | INFO | WARN | ERROR | OFF
  {
    /** The integer value each level is declared with. */
    function Value(): int {
      match this
      case DEBUG => 0
      case INFO => 1
      case WARN => 2
      case ERROR => 3
      case OFF => 4
    }
  }

  /** Level.values(), in declaration order. */
  const LEVELS: seq<Level> := [DEBUG, INFO, WARN, ERROR, OFF]

  /** Level.fromIntValue: the first level whose value is v, or None (null). */
  method FromIntValue(v: int) returns (r: Option<Level>)
    ensures r.Some? <==> 0 <= v <= 4
    ensures r.Some? ==> r.value.Value() == v
  {
    var i := 0;
    while i < |LEVELS|
      invariant 0 <= i <= |LEVELS|
      invariant !(0 <= v < i)
    {
      if v == LEVELS[i].Value() {
        return Some(LEVELS[i]);
      }
      i := i + 1;
    }
    return None;
  }

  /** Level.getHigher: the level with the larger value, the second on a tie. */
  function GetHigher(one: Level, two: Level): (r: Level)
    ensures r == one || r == two
    ensures r.Value() >= one.Value() && r.Value() >= two.Value()
  {
    if one.Value() > two.Value() then one else two
  }

  /** Level.isAllow: a threshold lets through messages at or above it. */
  predicate IsAllow(threshold: Level, check: Level) {
    threshold.Value() <= check.Value()
  }

  /** The effective filter: Logger.isLevelAllowed with the global level passed in. */
  predicate IsLevelAllowed(own: Level, global: Level, check: Level) {
    IsAllow(GetHigher(own, global), check)
  }

  /** A message is let through exactly when it clears both thresholds. */
  lemma LevelAllowedMeansBoth(own: Level, global: Level, check: Level)
    ensures IsLevelAllowed(own, global, check)
        <==> check.Value() >= own.Value() && check.Value() >= global.Value()
  {
  }

  /** OFF, set on the logger or globally, silences every message level d/i/w/e use. */
  lemma OffSilences(own: Level, global: Level, check: Level)
    requires own == OFF || global == OFF
    requires check != OFF
    ensures !IsLevelAllowed(own, global, check)
  {
  }

  /** Raising the global level never lets more messages through. */
  lemma RaisingGlobalOnlyFilters(own: Level, g1: Level, g2: Level, check: Level)
    requires g1.Value() <= g2.Value()
    ensures IsLevelAllowed(own, g2, check) ==> IsLevelAllowed(own, g1, check)
  {
  }

  /** A line handed to the platform log: level, tag and text. */
  datatype LogLine = LogLine(level: Level, tag: string, text: string)

  /** The static global level of the Logger class (ERROR by default). */
  class GlobalLevel {
    var level: Level

    constructor()
      ensures level == ERROR
    {
      level := ERROR;
    }

    /** setGlobalLevel(Level): always succeeds. */
    method SetGlobalLevel(l: Level) returns (r: bool)
      modifies this
      ensures r && level == l
    {
      level := l;
      r := true;
    }

    /** setGlobalLevel(int): false and unchanged when no level has that value. */
    method SetGlobalLevelValue(v: int) returns (r: bool)
      modifies this
      ensures r <==> 0 <= v <= 4
      ensures r ==> level.Value() == v
      ensures !r ==> level == old(level)
    {
      var found := FromIntValue(v);
      if found.None? {
        return false;
      }
      level := found.value;
      r := true;
    }
  }

  class Logger {
    const tag: string
    const level: Level

    constructor(tag: string, level: Level)
      ensures this.tag == tag && this.level == level
    {
      this.tag := tag;
      this.level := level;
    }

    /** The line d/i/w/e print at level at, or None when it is filtered out. */
    method Log(global: GlobalLevel, at: Level, text: string) returns (out: Option<LogLine>)
      ensures out.Some? <==> at.Value() >= level.Value() && at.Value() >= global.level.Value()
      ensures out.Some? ==> out.value == LogLine(at, tag, text)
    {
      LevelAllowedMeansBoth(level, global.level, at);
      if IsLevelAllowed(level, global.level, at) {
        out := Some(LogLine(at, tag, text));
      } else {
        out := None;
      }
    }

    method D(global: GlobalLevel, text: string) returns (out: Option<LogLine>)
      ensures out.Some? <==> level == DEBUG && global.level == DEBUG
      ensures out.Some? ==> out.value == LogLine(DEBUG, tag, text)
    {
      out := Log(global, DEBUG, text);
    }

    method I(global: GlobalLevel, text: string) returns (out: Option<LogLine>)
      ensures out.Some? <==> level.Value() <= 1 && global.level.Value() <= 1
      ensures out.Some? ==> out.value == LogLine(INFO, tag, text)
    {
      out := Log(global, INFO, text);
    }

    method W(global: GlobalLevel, text: string) returns (out: Option<LogLine>)
      ensures out.Some? <==> level.Value() <= 2 && global.level.Value() <= 2
      ensures out.Some? ==> out.value == LogLine(WARN, tag, text)
    {
      out := Log(global, WARN, text);
    }

    /** e prints unless the logger or the global level is OFF. */
    method E(global: GlobalLevel, text: string) returns (out: Option<LogLine>)
      ensures out.Some? <==> level != OFF && global.level != OFF
      ensures out.Some? ==> out.value == LogLine(ERROR, tag, text)
    {
      out := Log(global, ERROR, text);
    }

    /** printProcessInfo: an INFO line carrying the process, thread and user ids. */
    method PrintProcessInfo(global: GlobalLevel, info: string, pid: int, tid: int, uid: int)
      returns (out: Option<LogLine>)
      ensures out.Some? <==> level.Value() <= 1 && global.level.Value() <= 1
      ensures out.Some? ==> out.value.level == INFO && |out.value.text| > |info| && out.value.text[..|info|] == info
    {
      out := I(global, info + "@[PID:" + JavaLang.IntToDecimal(pid) + "] [TID:"
                     + JavaLang.IntToDecimal(tid) + "] [UID:" + JavaLang.IntToDecimal(uid) + "]");
    }
  }
}
