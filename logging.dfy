/** The process-wide logger of src/Logger.cpp: level names, the severity gate, and the
    console/file choice. Writing to the console and the file is what `Log` returns. */
module Logging {
  import opened Wrappers

  /** `enum class LogLevel`, in declaration order. */
  datatype LogLevel = Debug | Info | Warning | Error

  /** The enumerator's underlying value. */
  function Rank(l: LogLevel): nat {
    match l
    case Debug => 0
    case Info => 1
    case Warning => 2
    case Error => 3
  }

  /** `a < b` on the enum. */
  predicate Below(a: LogLevel, b: LogLevel) {
    Rank(a) < Rank(b)
  }

  /** DEBUG < INFO < WARNING < ERROR, and `Below` is a strict total order. */
  lemma SeverityOrder()
    ensures Below(Debug, Info) && Below(Info, Warning) && Below(Warning, Error)
    ensures forall a: LogLevel, b: LogLevel :: a != b ==> Below(a, b) || Below(b, a)
    ensures forall a: LogLevel :: !Below(a, a)
  {
  }

  /** `stringToLevel`: the four upper-case names, or the exception's message. */
  function StringToLevel(s: string): (r: Result<LogLevel, string>)
    ensures r.Success? <==> s == "DEBUG" || s == "INFO" || s == "WARNING" || s == "ERROR"
    ensures r.Failure? ==> r.error == "Unknown log level: " + s
  {
    if s == "DEBUG" then Success(Debug)
    else if s == "INFO" then Success(Info)
    else if s == "WARNING" then Success(Warning)
    else if s == "ERROR" then Success(Error)
    else Failure("Unknown log level: " + s)
  }

  /** `levelToString`: one of the four upper-case names. */
  function LevelToString(l: LogLevel): (r: string)
    ensures r == "DEBUG" || r == "INFO" || r == "WARNING" || r == "ERROR"
  {
    match l
    case Debug => "DEBUG"
    case Info => "INFO"
    case Warning => "WARNING"
    case Error => "ERROR"
  }

  /** Every level's name parses back to that level. */
  lemma LevelRoundTrip(l: LogLevel)
    ensures StringToLevel(LevelToString(l)) == Success(l)
  {
  }

  /** Every accepted name is the name of the level it parses to. */
  lemma NameRoundTrip(s: string)
    requires StringToLevel(s).Success?
    ensures LevelToString(StringToLevel(s).value) == s
  {
  }

  class Logger {
    var currentLevel: LogLevel
    var consoleOutput: bool
    var logFilePath: string
    /** `logFile.is_open()`. */
    var fileOpen: bool
    /** `logFile.good()`: no failed operation has put the stream into its fail state, so what
        is written to it reaches the file. */
    var fileGood: bool

    constructor ()
      ensures currentLevel == Info && consoleOutput && logFilePath == "" && !fileOpen && fileGood
    {
      currentLevel := Info;
      consoleOutput := true;
      logFilePath := "";
      fileOpen := false;
      fileGood := true;
    }

    /** `initialize`: the level first, then the sink; `canOpen` is whether opening the file
        for appending succeeds. An unknown level changes nothing; a file that cannot be
        opened leaves the new level in place and fails. Opening a stream that is already open
        fails without closing it: the stream stays open, but in its fail state. */
    method Initialize(levelStr: string, filepath: string, canOpen: bool) returns (r: Outcome<string>)
      modifies this
      ensures StringToLevel(levelStr).Failure? ==>
                r == Fail(StringToLevel(levelStr).error) && unchanged(this)
      ensures StringToLevel(levelStr).Success? ==> currentLevel == StringToLevel(levelStr).value
      ensures StringToLevel(levelStr).Success? && filepath == "" ==>
                && r.Pass? && consoleOutput && logFilePath == old(logFilePath)
                && fileOpen == old(fileOpen) && fileGood == old(fileGood)
      ensures StringToLevel(levelStr).Success? && filepath != "" ==>
                fileOpen == (old(fileOpen) || canOpen)
                && fileGood == (!old(fileOpen) && canOpen)
                && (if fileOpen then r.Pass? && !consoleOutput && logFilePath == filepath
                    else r == Fail("Cannot open log file: " + filepath)
                         && consoleOutput == old(consoleOutput) && logFilePath == old(logFilePath))
    {
      var level := StringToLevel(levelStr);
      if level.Failure? {
        return Fail(level.error);
      }
      currentLevel := level.value;
      if filepath != "" {
        if fileOpen {
          // A second open fails and sets failbit; the stream stays open.
          fileGood := false;
        } else {
          // A successful open clears the stream's state; a failed one sets failbit.
          fileOpen, fileGood := canOpen, canOpen;
        }
        if !fileOpen {
          return Fail("Cannot open log file: " + filepath);
        }
        logFilePath := filepath;
        consoleOutput := false;
      } else {
        consoleOutput := true;
      }
      return Pass;
    }

    /** `log`: what goes to the console and what line reaches the file; `timestamp` is the
        formatted wall-clock time. A stream in its fail state drops what is written to it. */
    method Log(level: LogLevel, message: string, timestamp: string)
      returns (console: Option<string>, fileLine: Option<string>)
      ensures Below(level, currentLevel) ==> console.None? && fileLine.None?
      ensures !Below(level, currentLevel) ==>
                && (console.Some? <==> consoleOutput) && (console.Some? ==> console.value == message)
                && (fileLine.Some? <==> fileOpen && fileGood)
                && (fileLine.Some? ==> fileLine.value == timestamp + " [" + LevelToString(level) + "] " + message)
    {
      console, fileLine := None, None;
      if Below(level, currentLevel) {
        return;
      }
      if consoleOutput {
        console := Some(message);
      }
      if fileOpen && fileGood {
        fileLine := Some(timestamp + " [" + LevelToString(level) + "] " + message);
      }
    }

    /** `setLevel`: replaces the threshold and nothing else. */
    method SetLevel(level: LogLevel)
      modifies this`currentLevel
      ensures currentLevel == level
    {
      currentLevel := level;
    }
  }

  /** Initializing twice with a log file leaves the first file open but in its fail state:
      the next message reaches neither the console nor the file. */
  method ReopenSilencesLog(first: string, second: string, message: string, timestamp: string)
    returns (console: Option<string>, fileLine: Option<string>)
    requires first != "" && second != ""
    ensures console.None? && fileLine.None?
  {
    var logger := new Logger();
    var r1 := logger.Initialize("INFO", first, true);
    var r2 := logger.Initialize("INFO", second, true);
    console, fileLine := logger.Log(Info, message, timestamp);
  }
}
