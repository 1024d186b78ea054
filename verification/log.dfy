/**
 * The logger of log.c: a process-wide threshold (LOG_INFO at start-up) below
 * which messages are dropped, the level names printed in each line, and the
 * `basename` that shortens `__FILE__` to its last path component. The clock
 * reading and the formatted message text are inputs.
 */
module Log {
  import opened Wrappers
  import opened Decimal

  /** The `log_level_t` enumerators, in declaration order. */
  const LOG_DEBUG: int := 0
  const LOG_INFO: int := 1
  const LOG_WARN: int := 2
  const LOG_ERROR: int := 3

  /** `log_level_names`, indexed by level. */
  const LOG_LEVEL_NAMES: seq<string> := ["DEBUG", "INFO", "WARN", "ERROR"]

  /** `strrchr(s, c)`: the index of the last occurrence of c, if any. */
  function LastIndexOf(s: string, c: char): (r: Option<nat>)
    ensures r.None? <==> c !in s
    ensures r.Some? ==> r.value < |s| && s[r.value] == c && c !in s[r.value + 1..]
  {
    if s == [] then None
    else if s[|s| - 1] == c then Some(|s| - 1)
    else
      var r := LastIndexOf(s[..|s| - 1], c);
      assert s[..|s| - 1] + [s[|s| - 1]] == s;
      assert r.Some? ==> s[r.value + 1..] == s[..|s| - 1][r.value + 1..] + [s[|s| - 1]];
      r
  }

  /** basename: the text after the last '/', or the whole path when it has none. */
  function Basename(path: string): string {
    match LastIndexOf(path, '/')
    case None => path
    case Some(i) => path[i + 1..]
  }

  /**
   * The result is a suffix of the path with no '/' in it: all of the path when
   * it has no '/', and otherwise exactly what follows its last '/'.
   */
  lemma BasenameIsLastComponent(path: string)
    ensures var b := Basename(path);
      && |b| <= |path| && path[|path| - |b|..] == b && '/' !in b
      && ('/' !in path ==> b == path)
      && ('/' in path ==> |b| < |path| && path[|path| - |b| - 1] == '/')
  {
    match LastIndexOf(path, '/')
    case None =>
      assert path[0..] == path;
    case Some(i) =>
      assert |path| - |path[i + 1..]| == i + 1;
  }

  /** A directory part is dropped whatever it holds: basename(dir + "/" + name) is name. */
  lemma BasenameOfJoin(dir: string, name: string)
    requires '/' !in name
    ensures Basename(dir + "/" + name) == name
  {
    var path := dir + "/" + name;
    assert path[|dir|] == '/';
    assert path[|dir| + 1..] == name;
  }

  /** basename of a name without '/' is the name, so applying it twice is applying it once. */
  lemma BasenameIdempotent(path: string)
    ensures Basename(Basename(path)) == Basename(path)
  {
    BasenameIsLastComponent(path);
    BasenameIsLastComponent(Basename(path));
  }

  /**
   * What one log_message call prints: nothing below the threshold; otherwise
   * one line. A level outside the table makes `log_level_names[level]` read
   * outside the array, which is undefined.
   */
  datatype Output = Suppressed | Emitted(line: string) | NameOutOfRange

  /** The line printed: `[time][LEVEL][file:line][func] message` and a newline. */
  function LogLine(time: string, name: string, file: string, line: int, func: string, message: string): string {
    "[" + time + "][" + name + "][" + Basename(file) + ":" + IntToDec(line) + "][" + func + "] " + message + "\n"
  }

  /** The current threshold (`current_log_level`). */
  class Logger {
    var currentLevel: int

    /** The threshold at start-up is LOG_INFO. */
    constructor ()
      ensures currentLevel == LOG_INFO
    {
      currentLevel := LOG_INFO;
    }

    /** set_log_level replaces the threshold and nothing else. */
    method SetLogLevel(level: int)
      modifies this
      ensures currentLevel == level
    {
      currentLevel := level;
    }

    /**
     * log_message with the clock reading `time` and the already formatted
     * message: below the threshold nothing is printed; at or above it exactly
     * one line, carrying the level's name from the table.
     */
    method LogMessage(level: int, time: string, file: string, line: int, func: string, message: string)
      returns (out: Output)
      ensures out.Suppressed? <==> level < currentLevel
      ensures level >= currentLevel && 0 <= level < |LOG_LEVEL_NAMES| ==>
        out == Emitted(LogLine(time, LOG_LEVEL_NAMES[level], file, line, func, message))
      ensures level >= currentLevel && !(0 <= level < |LOG_LEVEL_NAMES|) ==> out == NameOutOfRange
    {
      if level < currentLevel {
        return Suppressed;
      }
      if !(0 <= level < |LOG_LEVEL_NAMES|) {
        return NameOutOfRange;
      }
      out := Emitted(LogLine(time, LOG_LEVEL_NAMES[level], file, line, func, message));
    }
  }

  /** The printed line reads back: the level name and the file's basename sit between the fixed brackets. */
  lemma LogLineFields(time: string, name: string, file: string, line: int, func: string, message: string)
    ensures var l := LogLine(time, name, file, line, func, message);
      var head := "[" + time + "][" + name + "][";
      && l[..|head|] == head
      && l[|head|..|head| + |Basename(file)|] == Basename(file)
      && l[|l| - 1] == '\n'
  {
    var l := LogLine(time, name, file, line, func, message);
    var head := "[" + time + "][" + name + "][";
    var rest := ":" + IntToDec(line) + "][" + func + "] " + message + "\n";
    assert l == head + Basename(file) + rest;
  }
}
