/**
 * The process-wide logger: a current level (default Info), a
 * case-insensitive level setter, and the four gated output functions.
 * Log lines are the text handed to the standard logger; the file, the
 * MultiWriter and the timestamp flags are not modelled.
 */
module Logging {

  /** Ordered by severity threshold: Error(0) < Warn(1) < Info(2) < Debug(3). */
  datatype LogLevel = LevelError | LevelWarn | LevelInfo | LevelDebug
  {
    function Rank(): (n: nat)
      ensures n <= 3
    {
      match this
      case LevelError => 0
      case LevelWarn => 1
      case LevelInfo => 2
      case LevelDebug => 3
    }
  }

  const DefaultLevel: LogLevel := LevelInfo

  /** Upper case of one rune as far as matching level names is concerned:
      ASCII letters, plus the two non-ASCII runes whose upper case is an
      ASCII letter (dotless i and long s). Other runes keep a non-ASCII
      upper case, so mapping them to themselves decides matching alike. */
  function UpperRune(c: char): char
  {
    if 'a' <= c <= 'z' then (c as int - 32) as char
    else if c == '\U{0131}' then 'I'
    else if c == '\U{017F}' then 'S'
    else c
  }

  /** strings.ToUpper, rune by rune. */
  function ToUpper(s: string): (u: string)
    ensures |u| == |s|
    ensures forall i :: 0 <= i < |s| ==> u[i] == UpperRune(s[i])
  {
    if s == [] then [] else [UpperRune(s[0])] + ToUpper(s[1..])
  }

  /** The level a configuration string selects; unknown strings select Info. */
  function LevelFromString(level: string): (l: LogLevel)
    ensures l == LevelInfo || ToUpper(level) == LevelName(l)
  {
    match ToUpper(level)
    case "DEBUG" => LevelDebug
    case "INFO" => LevelInfo
    case "WARN" => LevelWarn
    case "ERROR" => LevelError
    case _ => LevelInfo
  }

  /** The canonical upper-case name of a level. */
  function LevelName(l: LogLevel): string
  {
    match l
    case LevelError => "ERROR"
    case LevelWarn => "WARN"
    case LevelInfo => "INFO"
    case LevelDebug => "DEBUG"
  }

  /** The fixed prefix of a line logged at level `l`. */
  function Prefix(l: LogLevel): (p: string)
    ensures p == "[" + LevelName(l) + "] "
  {
    match l
    case LevelError => "[ERROR] "
    case LevelWarn => "[WARN] "
    case LevelInfo => "[INFO] "
    case LevelDebug => "[DEBUG] "
  }

  /** A message at `msgLevel` is written when the current level is at least it. */
  predicate Enabled(current: LogLevel, msgLevel: LogLevel)
    ensures msgLevel == LevelError ==> Enabled(current, msgLevel)
    ensures current == LevelDebug ==> Enabled(current, msgLevel)
    ensures current == LevelError ==> (Enabled(current, msgLevel) <==> msgLevel == LevelError)
  {
    current.Rank() >= msgLevel.Rank()
  }

  /** Upper-casing twice changes nothing more. */
  lemma {:induction false} ToUpperIdempotent(s: string)
    ensures ToUpper(ToUpper(s)) == ToUpper(s)
  {
    if s != [] {
      ToUpperIdempotent(s[1..]);
    }
  }

  /** The setter ignores letter case: a string and its upper case select the same level. */
  lemma LevelFromStringIgnoresCase(s: string)
    ensures LevelFromString(s) == LevelFromString(ToUpper(s))
  {
    ToUpperIdempotent(s);
  }

  /** Each of the four names selects its level, whatever its letter case. */
  lemma LevelFromStringRecognises(s: string, l: LogLevel)
    requires ToUpper(s) == LevelName(l)
    ensures LevelFromString(s) == l
  {
  }

  /** The selected level is Debug, Warn or Error only for those names; every
      other string (including "INFO" and "") selects Info. */
  lemma LevelFromStringCases(s: string)
    ensures LevelFromString(s) == LevelDebug <==> ToUpper(s) == "DEBUG"
    ensures LevelFromString(s) == LevelWarn <==> ToUpper(s) == "WARN"
    ensures LevelFromString(s) == LevelError <==> ToUpper(s) == "ERROR"
    ensures ToUpper(s) !in {"DEBUG", "WARN", "ERROR"} ==> LevelFromString(s) == LevelInfo
  {
  }

  /** Concrete readings: lower- and mixed-case names and an unknown word.
      "\U{0131}nfo" upper-cases to "INFO", but it would select Info through
      the default branch as well: no level name contains 'S', and an 'I' only
      occurs in "INFO", so the two non-ASCII runes never change the level. */
  lemma LevelFromStringExamples()
    ensures LevelFromString("debug") == LevelDebug
    ensures LevelFromString("Warn") == LevelWarn
    ensures LevelFromString("error") == LevelError
    ensures LevelFromString("\U{0131}nfo") == LevelInfo
    ensures LevelFromString("verbose") == LevelInfo
  {
    assert ToUpper("debug") == "DEBUG";
    assert ToUpper("Warn") == "WARN";
    assert ToUpper("error") == "ERROR";
    assert ToUpper("verbose") == "VERBOSE";
  }

  /** Error-level messages are written at every level, and a message that is
      written at some level is written at every more verbose level. */
  lemma GateMonotone(current: LogLevel, more: LogLevel, msgLevel: LogLevel)
    ensures Enabled(current, LevelError)
    ensures Enabled(current, msgLevel) && more.Rank() >= current.Rank() ==> Enabled(more, msgLevel)
    ensures Enabled(current, msgLevel) <==> current.Rank() >= msgLevel.Rank()
  {
  }

  /** The logger's state: the current level and the lines written so far. */
  class Logger {
    var currentLogLevel: LogLevel
    var output: seq<string>

    constructor ()
      ensures currentLogLevel == DefaultLevel && output == []
    {
      currentLogLevel := DefaultLevel;
      output := [];
    }

    /** The level set by the most recent SetLevelFromString (Info before any). */
    function GetLevel(): (l: LogLevel)
      reads this
      ensures l == currentLogLevel
    {
      currentLogLevel
    }

    method SetLevelFromString(level: string)
      modifies this
      ensures GetLevel() == LevelFromString(level)
      ensures output == old(output)
    {
      var upper := ToUpper(level);
      if upper == "DEBUG" {
        currentLogLevel := LevelDebug;
      } else if upper == "INFO" {
        currentLogLevel := LevelInfo;
      } else if upper == "WARN" {
        currentLogLevel := LevelWarn;
      } else if upper == "ERROR" {
        currentLogLevel := LevelError;
      } else {
        currentLogLevel := LevelInfo;
      }
    }

    /** One gated output call: writes the prefixed line only when enabled. */
    method Emit(msgLevel: LogLevel, msg: string)
      modifies this
      ensures currentLogLevel == old(currentLogLevel)
      ensures output == if Enabled(currentLogLevel, msgLevel)
                        then old(output) + [Prefix(msgLevel) + msg]
                        else old(output)
    {
      if currentLogLevel.Rank() >= msgLevel.Rank() {
        output := output + [Prefix(msgLevel) + msg];
      }
    }

    method Error(msg: string)
      modifies this
      ensures currentLogLevel == old(currentLogLevel)
      ensures output == old(output) + ["[ERROR] " + msg]
    {
      Emit(LevelError, msg);
    }

    method Warn(msg: string)
      modifies this
      ensures currentLogLevel == old(currentLogLevel)
      ensures output == if currentLogLevel.Rank() >= 1 then old(output) + ["[WARN] " + msg] else old(output)
    {
      Emit(LevelWarn, msg);
    }

    method Info(msg: string)
      modifies this
      ensures currentLogLevel == old(currentLogLevel)
      ensures output == if currentLogLevel.Rank() >= 2 then old(output) + ["[INFO] " + msg] else old(output)
    {
      Emit(LevelInfo, msg);
    }

    method Debug(msg: string)
      modifies this
      ensures currentLogLevel == old(currentLogLevel)
      ensures output == if currentLogLevel == LevelDebug then old(output) + ["[DEBUG] " + msg] else old(output)
    {
      Emit(LevelDebug, msg);
    }
  }
}
