/**
 * The version-2 logger: level gating, the line format, the operation timer
 * map, the newest-first tail of today's log file and the removal of old log
 * files.
 *
 * The log file is the sequence of entries written to it, one per `log`
 * call (each followed by `PHP_EOL`, left implicit); `None` is a file that
 * does not exist yet. Reading it back with `file()` splits an entry whose
 * message holds a newline into several lines. The log directory
 * is a listing of (name, mtime) pairs in the order `glob` returns them.
 * `json_encode` is a parameter; the clock, the user id and the client
 * address come in a `Caller` record.
 */
module Logger {
  import opened Php

  const LevelDebug := "debug"
  const LevelInfo := "info"
  const LevelWarning := "warning"
  const LevelError := "error"
  const LevelCritical := "critical"

  const DebugLogTag := "[WCFD] "
  const PerformancePrefix := "Performance: "
  const DeletedPrefix := "Deleted old log file: "
  const ContextSeparator := " | Context: "

  /** An associative context array, in insertion order. */
  type Context = seq<(string, string)>

  /** `current_time('mysql')`, `get_current_user_id()` and `$_SERVER['REMOTE_ADDR']`. */
  datatype Caller = Caller(timestamp: string, userId: int, remoteAddr: Option<string>)

  /** A debug message is dropped unless debug mode is on; every other level is written. */
  predicate Written(debugMode: bool, level: string) {
    !(level == LevelDebug && !debugMode)
  }

  /** Errors and critical messages also go to the WordPress debug log. */
  predicate Escalated(level: string) {
    level == LevelError || level == LevelCritical
  }

  function Header(caller: Caller, level: string): (r: string)
    ensures StartsWith(r, ("[" + caller.timestamp + "] ") + ("[" + ToUpper(level) + "]"))
  {
    var head := ("[" + caller.timestamp + "] ") + ("[" + ToUpper(level) + "]");
    var rest := " [User: " + IntToString(caller.userId) + "] [IP: " + OrElse(caller.remoteAddr, "unknown") + "] ";
    assert (head + rest)[..|head|] == head;
    head + rest
  }

  /** "[ts] [LEVEL] [User: id] [IP: ip] msg", plus " | Context: json" for a non-empty context. */
  function FormatLine(caller: Caller, level: string, message: string, context: Context, json: Context -> string)
    : (r: string)
    ensures StartsWith(r, Header(caller, level) + message)
    ensures context == [] ==> EndsWith(r, message) && r == Header(caller, level) + message
    ensures context != [] ==> EndsWith(r, ContextSeparator + json(context))
  {
    var line := Header(caller, level) + message;
    if context == [] then line
    else
      var suffix := ContextSeparator + json(context);
      assert (line + suffix)[..|line|] == line;
      assert (line + suffix)[|line + suffix| - |suffix|..] == suffix;
      line + suffix
  }

  /** Two strings that agree up to case have the same lower-case form. */
  lemma SameLower(a: string, b: string)
    requires |a| == |b| && forall j :: 0 <= j < |a| ==> LowerChar(a[j]) == LowerChar(b[j])
    ensures ToLower(a) == ToLower(b)
  {
  }

  /** Lower-casing keeps an occurrence where it was. */
  lemma LowerKeepsOccurrence(s: string, t: string, k: int)
    requires OccursAt(s, t, k)
    ensures OccursAt(ToLower(s), ToLower(t), k)
  {
    forall j | 0 <= j < |t| ensures ToLower(s)[k..k + |t|][j] == ToLower(t)[j] {
      assert s[k..k + |t|][j] == t[j];
    }
  }

  /** `stripos($line, "[$level]") !== false`. */
  predicate MentionsLevel(line: string, level: string) {
    Contains(ToLower(line), ToLower("[" + level + "]"))
  }

  /** A line written at some level is found again by the level filter of `get_recent_logs`. */
  lemma FormattedLineMentionsLevel(caller: Caller, level: string, message: string, context: Context,
                                   json: Context -> string)
    ensures MentionsLevel(FormatLine(caller, level, message, context, json), level)
  {
    var line := FormatLine(caller, level, message, context, json);
    var lead := "[" + caller.timestamp + "] ";
    var utag := "[" + ToUpper(level) + "]";
    PrefixOfPrefix(Header(caller, level) + message, Header(caller, level), lead + utag);
    PrefixOfPrefix(line, Header(caller, level) + message, lead + utag);
    PrefixOccurs(line, lead, utag);
    TagCaseless(level);
    LowerKeepsOccurrence(line, utag, |lead|);
  }

  /** A prefix of a prefix is a prefix. */
  lemma PrefixOfPrefix(s: string, p: string, q: string)
    requires StartsWith(s, p) && StartsWith(p, q)
    ensures StartsWith(s, q)
  {
    assert s[..|q|] == s[..|p|][..|q|];
  }

  /** What a line starts with after a lead occurs right after that lead. */
  lemma PrefixOccurs(line: string, lead: string, t: string)
    requires StartsWith(line, lead + t)
    ensures OccursAt(line, t, |lead|)
  {
    assert line[|lead|..|lead| + |t|] == (lead + t)[|lead|..];
  }

  /** The upper-case level tag lower-cases to the same as the tag as given. */
  lemma TagCaseless(level: string)
    ensures ToLower("[" + ToUpper(level) + "]") == ToLower("[" + level + "]")
  {
    var tag := "[" + level + "]";
    var utag := "[" + ToUpper(level) + "]";
    forall j | 0 <= j < |utag| ensures LowerChar(utag[j]) == LowerChar(tag[j]) {
      if 0 < j < |utag| - 1 {
        assert utag[j] == ToUpper(level)[j - 1] && tag[j] == level[j - 1];
      }
    }
    SameLower(utag, tag);
  }

  datatype Timer = Timer(start: int, memoryStart: int)

  datatype LogFile = LogFile(name: string, mtime: int)

  /** `glob('wcfd-*.log')` on a base name. */
  predicate IsLogFileName(name: string) {
    |name| >= 9 && StartsWith(name, "wcfd-") && EndsWith(name, ".log")
  }

  /** A file `cleanup_old_logs` removes. */
  predicate Stale(f: LogFile, cutoff: int) {
    IsLogFileName(f.name) && f.mtime < cutoff
  }

  function Survivors(files: seq<LogFile>, cutoff: int): (r: seq<LogFile>)
    ensures |r| <= |files|
  {
    if files == [] then []
    else if Stale(files[0], cutoff) then Survivors(files[1..], cutoff)
    else [files[0]] + Survivors(files[1..], cutoff)
  }

  function Removed(files: seq<LogFile>, cutoff: int): (r: seq<LogFile>)
    ensures |r| <= |files|
  {
    if files == [] then []
    else if Stale(files[0], cutoff) then [files[0]] + Removed(files[1..], cutoff)
    else Removed(files[1..], cutoff)
  }

  /** Exactly the stale files are removed and exactly the others kept. */
  lemma {:induction false} CleanupMembers(files: seq<LogFile>, cutoff: int)
    ensures forall f :: f in Survivors(files, cutoff) <==> f in files && !Stale(f, cutoff)
    ensures forall f :: f in Removed(files, cutoff) <==> f in files && Stale(f, cutoff)
  {
    if files != [] {
      CleanupMembers(files[1..], cutoff);
      assert files == [files[0]] + files[1..];
    }
  }

  /** The files removed and the files kept split the listing: every file is in exactly one. */
  lemma {:induction false} CleanupPartitions(files: seq<LogFile>, cutoff: int)
    ensures |Survivors(files, cutoff)| + |Removed(files, cutoff)| == |files|
  {
    if files != [] {
      CleanupPartitions(files[1..], cutoff);
    }
  }

  /** A second cleanup with the same cutoff removes nothing more. */
  lemma {:induction false} CleanupIdempotent(files: seq<LogFile>, cutoff: int)
    ensures Survivors(Survivors(files, cutoff), cutoff) == Survivors(files, cutoff)
    ensures Removed(Survivors(files, cutoff), cutoff) == []
  {
    if files != [] {
      CleanupIdempotent(files[1..], cutoff);
    }
  }

  const SecondsPerDay := 86400

  /** The cutoff `strtotime("-N days")`, with every day 86400 seconds long. */
  function Cutoff(now: int, daysToKeep: int): int {
    now - daysToKeep * SecondsPerDay
  }

  /**
   * With 30 days kept, a file last modified 35 days ago goes and one
   * modified now stays. The age is the modification time, not the date in
   * the name: a file named after an old day but written now is kept.
   */
  lemma MonthOldLogRemoved(now: int)
    ensures var files := [LogFile("wcfd-old.log", now - 35 * SecondsPerDay), LogFile("wcfd-today.log", now)];
      Survivors(files, Cutoff(now, 30)) == [files[1]] && Removed(files, Cutoff(now, 30)) == [files[0]]
    ensures Removed([LogFile("wcfd-2000-01-01.log", now)], Cutoff(now, 30)) == []
  {
    var files := [LogFile("wcfd-old.log", now - 35 * SecondsPerDay), LogFile("wcfd-today.log", now)];
    assert StartsWith(files[0].name, "wcfd-") && EndsWith(files[0].name, ".log");
    assert Stale(files[0], Cutoff(now, 30));
    assert !Stale(files[1], Cutoff(now, 30));
    assert files[1..][1..] == [];
  }

  /** No newline inside, and no carriage return at the end: a line `file()` gives back unchanged. */
  predicate PlainLine(s: string) {
    '\n' !in s && (s == [] || s[|s| - 1] != '\r')
  }

  /** `FILE_IGNORE_NEW_LINES` drops the newline and a carriage return just before it. */
  function StripCr(piece: string): (r: string)
    ensures piece == r || piece == r + "\r"
    ensures PlainLine(piece) ==> r == piece
  {
    if |piece| > 0 && piece[|piece| - 1] == '\r' then piece[..|piece| - 1] else piece
  }

  /** The lines `file()` reads back from one entry written with `PHP_EOL`: the entry split at each newline. */
  function EntryLines(entry: string): (r: seq<string>)
    ensures |r| >= 1
    ensures forall i :: 0 <= i < |r| ==> '\n' !in r[i]
    ensures PlainLine(entry) ==> r == [entry]
  {
    var pieces := Explode('\n', entry);
    assert PlainLine(entry) ==> pieces == [entry] by {
      if PlainLine(entry) {
        ExplodeNoSep('\n', entry);
      }
    }
    seq(|pieces|, i requires 0 <= i < |pieces| => StripCr(pieces[i]))
  }

  /** `file($log_file, FILE_IGNORE_NEW_LINES | …)` before empty lines are skipped: every entry's lines, in order. */
  function ReadLines(entries: seq<string>): (r: seq<string>)
    ensures |r| >= |entries|
    ensures forall l :: l in r ==> '\n' !in l
  {
    if entries == [] then []
    else ReadLines(entries[..|entries| - 1]) + EntryLines(entries[|entries| - 1])
  }

  /** Entries without newlines read back one line each, unchanged. */
  lemma {:induction false} PlainEntriesReadBack(entries: seq<string>)
    requires forall i :: 0 <= i < |entries| ==> PlainLine(entries[i])
    ensures ReadLines(entries) == entries
  {
    if entries != [] {
      PlainEntriesReadBack(entries[..|entries| - 1]);
      assert entries[..|entries| - 1] + [entries[|entries| - 1]] == entries;
    }
  }

  /** Lines with the empty lines skipped, newest first (`file(..., FILE_SKIP_EMPTY_LINES)` then `array_reverse`). */
  function NewestFirst(lines: seq<string>): (r: seq<string>)
    ensures |r| <= |lines|
    ensures forall l :: l in r <==> l in lines && l != ""
  {
    if lines == [] then []
    else if lines[|lines| - 1] == "" then NewestFirst(lines[..|lines| - 1])
    else [lines[|lines| - 1]] + NewestFirst(lines[..|lines| - 1])
  }

  /** The level filter; a falsy level ("" or "0" or none) keeps every line. */
  predicate Selected(line: string, level: Option<string>) {
    level.None? || EmptyString(level.value) || MentionsLevel(line, level.value)
  }

  function Matching(lines: seq<string>, level: Option<string>): (r: seq<string>)
    ensures |r| <= |lines|
  {
    if lines == [] then []
    else if Selected(lines[|lines| - 1], level) then Matching(lines[..|lines| - 1], level) + [lines[|lines| - 1]]
    else Matching(lines[..|lines| - 1], level)
  }

  /** The filter keeps exactly the selected lines. */
  lemma {:induction false} MatchingMembers(lines: seq<string>, level: Option<string>)
    ensures forall l :: l in Matching(lines, level) <==> l in lines && Selected(l, level)
  {
    if lines != [] {
      MatchingMembers(lines[..|lines| - 1], level);
      assert lines == lines[..|lines| - 1] + [lines[|lines| - 1]];
    }
  }

  lemma MatchingStep(lines: seq<string>, i: nat, level: Option<string>)
    requires i < |lines|
    ensures Matching(lines[..i + 1], level)
      == Matching(lines[..i], level) + (if Selected(lines[i], level) then [lines[i]] else [])
  {
    assert lines[..i + 1][..i] == lines[..i];
  }

  predicate IsPrefix(a: seq<string>, b: seq<string>) {
    |a| <= |b| && a == b[..|a|]
  }

  lemma {:induction false} MatchingPrefix(lines: seq<string>, i: nat, level: Option<string>)
    requires i <= |lines|
    ensures IsPrefix(Matching(lines[..i], level), Matching(lines, level))
    decreases |lines| - i
  {
    if i < |lines| {
      MatchingStep(lines, i, level);
      MatchingPrefix(lines, i + 1, level);
      var a, b, m := Matching(lines[..i], level), Matching(lines[..i + 1], level), Matching(lines, level);
      assert b[..|a|] == a;
      assert m[..|b|][..|a|] == m[..|a|];
    } else {
      assert lines[..i] == lines;
    }
  }

  /** How many lines `get_recent_logs` keeps: the loop tests the count only after appending. */
  function Quota(limit: int): (n: nat)
    ensures limit >= 1 ==> n == limit
    ensures limit <= 0 ==> n == 1
  {
    if limit >= 1 then limit else 1
  }

  /** The newest matching lines, at most `Quota(limit)` of them. */
  function RecentSpec(file: Option<seq<string>>, limit: int, level: Option<string>): (r: seq<string>)
    ensures file.None? ==> r == []
    ensures |r| <= Quota(limit)
  {
    if file.None? then []
    else
      var m := Matching(NewestFirst(ReadLines(file.value)), level);
      if |m| <= Quota(limit) then m else m[..Quota(limit)]
  }

  /** Every recent line is a non-empty line read back from the file that passes the level filter. */
  lemma RecentMembers(entries: seq<string>, limit: int, level: Option<string>)
    ensures forall l :: l in RecentSpec(Some(entries), limit, level) ==>
      l in ReadLines(entries) && l != "" && '\n' !in l && Selected(l, level)
  {
    var lines := ReadLines(entries);
    var m := Matching(NewestFirst(lines), level);
    MatchingMembers(NewestFirst(lines), level);
    var r := RecentSpec(Some(entries), limit, level);
    forall l | l in r ensures l in m {
      if |m| > Quota(limit) {
        assert l in m[..Quota(limit)];
      }
    }
  }

  /**
   * A message holding a newline comes back from `get_recent_logs` as two
   * lines: the first with the header, the second bare. With a limit of one
   * only the bare line is returned, and a level filter drops it.
   */
  lemma MultiLineMessage(caller: Caller, level: string, first: string, rest: string, json: Context -> string,
                         limit: int)
    requires PlainLine(Header(caller, level) + first) && PlainLine(rest)
    ensures var entry := FormatLine(caller, level, first + "\n" + rest, [], json);
      && ReadLines([entry]) == [Header(caller, level) + first, rest]
      && (rest != "" ==> RecentSpec(Some([entry]), 1, None) == [rest])
      && (!EmptyString(level) && !MentionsLevel(rest, level) && limit >= 1 ==>
            RecentSpec(Some([entry]), limit, Some(level)) == [Header(caller, level) + first])
  {
    var a := Header(caller, level) + first;
    var entry := FormatLine(caller, level, first + "\n" + rest, [], json);
    assert entry == a + "\n" + rest;
    TwoLineEntry(a, rest);
    assert a != "" by {
      assert StartsWith(Header(caller, level), "[");
    }
    FormattedLineMentionsLevel(caller, level, first, [], json);
    TwoLineFilter(a, rest, level, limit);
  }

  /** An entry made of two plain lines joined by a newline reads back as those two lines. */
  lemma TwoLineEntry(a: string, rest: string)
    requires PlainLine(a) && PlainLine(rest)
    ensures ReadLines([a + "\n" + rest]) == [a, rest]
  {
    var entry := a + "\n" + rest;
    assert entry == Implode("\n", [a, rest]) by {
      assert Implode("\n", [a, rest][1..]) == rest;
    }
    ExplodeImplode('\n', [a, rest]);
    assert EntryLines(entry) == [a, rest];
    assert [entry][..0] == [];
  }

  /** The newest-first walk over the two lines: the bare line first, and gone under a level it does not mention. */
  lemma TwoLineFilter(a: string, rest: string, level: string, limit: int)
    requires a != "" && MentionsLevel(a, level)
    ensures rest != "" ==> Matching(NewestFirst([a, rest]), None)[..1] == [rest]
    ensures !EmptyString(level) && !MentionsLevel(rest, level) ==> Matching(NewestFirst([a, rest]), Some(level)) == [a]
  {
    assert [a, rest][..1] == [a];
    assert [a][..0] == [];
    if rest != "" {
      assert NewestFirst([a, rest]) == [rest, a];
      assert [rest, a][..1] == [rest];
      assert Matching([rest], None) == [rest];
    } else {
      assert NewestFirst([a, rest]) == [a];
    }
  }

  /** The result is the newest-first filtered list cut at the quota: nothing newer is passed over. */
  lemma RecentIsNewestPrefix(entries: seq<string>, limit: int, level: Option<string>)
    ensures var r := RecentSpec(Some(entries), limit, level);
      var m := Matching(NewestFirst(ReadLines(entries)), level);
      IsPrefix(r, m) && (|r| < Quota(limit) ==> r == m)
  {
  }

  class Log {
    const debugMode: bool
    /** Today's `wcfd-YYYY-MM-DD.log`. */
    var file: Option<seq<string>>
    /** The WordPress debug log that `error_log` without a destination writes. */
    var debugLog: seq<string>
    var metrics: map<string, Timer>
    /** The `wcfd-logs` directory; `None` when it does not exist. */
    var directory: Option<seq<LogFile>>

    /**
     * `existing` is what earlier requests of the day have already written to
     * today's file (`None` when it does not exist yet); a new logger points
     * at that file and reads it as it stands.
     */
    constructor(debugMode: bool, existing: Option<seq<string>>, directory: Option<seq<LogFile>>)
      ensures this.debugMode == debugMode && file == existing && debugLog == [] && metrics == map[]
      ensures this.directory == directory
    {
      this.debugMode := debugMode;
      file := existing;
      debugLog := [];
      metrics := map[];
      this.directory := directory;
    }

    function Lines(): seq<string>
      reads this
    {
      OrElse(file, [])
    }

    /** `log`: gate, format, append to the file and, for errors, to the debug log. */
    method Log(caller: Caller, message: string, level: string, context: Context, json: Context -> string)
      modifies this
      ensures var line := FormatLine(caller, level, message, context, json);
        && (Written(debugMode, level) ==> file == Some(old(Lines()) + [line]))
        && (!Written(debugMode, level) ==> file == old(file))
        && debugLog == old(debugLog) + (if Written(debugMode, level) && Escalated(level) then [DebugLogTag + line] else [])
      ensures metrics == old(metrics) && directory == old(directory)
    {
      if level == LevelDebug && !debugMode {
        return;
      }
      var line := FormatLine(caller, level, message, context, json);
      file := Some(Lines() + [line]);
      if level == LevelError || level == LevelCritical {
        debugLog := debugLog + [DebugLogTag + line];
      }
    }

    /** `start_timer`: (re)starts the named timer. */
    method StartTimer(operation: string, now: int, memory: int)
      modifies this
      ensures metrics == old(metrics)[operation := Timer(now, memory)]
      ensures file == old(file) && debugLog == old(debugLog) && directory == old(directory)
    {
      metrics := metrics[operation := Timer(now, memory)];
    }

    /**
     * `end_timer`: an unknown operation changes nothing; a known one logs a
     * debug line and is removed. The rounded duration and memory context is
     * an input.
     */
    method EndTimer(operation: string, caller: Caller, measured: Context, json: Context -> string)
      modifies this
      ensures metrics == old(metrics) - {operation}
      ensures operation !in old(metrics) ==> file == old(file) && debugLog == old(debugLog)
      ensures operation in old(metrics) && debugMode ==>
        file == Some(old(Lines()) + [FormatLine(caller, LevelDebug, PerformancePrefix + operation, measured, json)])
      ensures operation in old(metrics) && !debugMode ==> file == old(file)
      ensures debugLog == old(debugLog) && directory == old(directory)
    {
      if operation !in metrics {
        return;
      }
      Log(caller, PerformancePrefix + operation, LevelDebug, measured, json);
      metrics := metrics - {operation};
    }

    /** `get_recent_logs`: walks the file newest first, skipping lines of other levels, until the quota is met. */
    method GetRecentLogs(limit: int, level: Option<string>) returns (logs: seq<string>)
      ensures logs == RecentSpec(file, limit, level)
    {
      if file.None? {
        return [];
      }
      var lines := NewestFirst(ReadLines(file.value));
      logs := [];
      var i := 0;
      while i < |lines|
        invariant 0 <= i <= |lines|
        invariant logs == Matching(lines[..i], level)
        invariant |logs| < Quota(limit)
      {
        MatchingStep(lines, i, level);
        var line := lines[i];
        if !(level.Some? && !EmptyString(level.value)) || MentionsLevel(line, level.value) {
          logs := logs + [line];
          if |logs| >= limit {
            MatchingPrefix(lines, i + 1, level);
            assert |logs| == Quota(limit);
            return;
          }
        }
        i := i + 1;
      }
      assert lines[..i] == lines;
    }

    /** `cleanup_old_logs`: removes each stale file in listing order and logs one info line per removal. */
    method CleanupOldLogs(daysToKeep: int, now: int, caller: Caller, json: Context -> string)
      modifies this
      ensures old(directory).None? ==> directory == old(directory) && file == old(file)
      ensures old(directory).Some? ==>
        && directory == Some(Survivors(old(directory).value, Cutoff(now, daysToKeep)))
        && Lines() == old(Lines()) + RemovalLines(Removed(old(directory).value, Cutoff(now, daysToKeep)), caller, json)
      ensures metrics == old(metrics) && debugLog == old(debugLog)
    {
      if directory.None? {
        return;
      }
      var files := directory.value;
      var cutoff := Cutoff(now, daysToKeep);
      var i := 0;
      assert Survivors(files[..0], cutoff) + files[0..] == files;
      assert Removed(files[..0], cutoff) == [];
      while i < |files|
        invariant 0 <= i <= |files|
        invariant directory == Some(Survivors(files[..i], cutoff) + files[i..])
        invariant Lines() == old(Lines()) + RemovalLines(Removed(files[..i], cutoff), caller, json)
        invariant metrics == old(metrics) && debugLog == old(debugLog)
      {
        CleanupStep(files, i, cutoff, caller, json, old(Lines()));
        i := i + 1;
      }
      assert files[..i] == files;
      assert Survivors(files, cutoff) + files[i..] == Survivors(files, cutoff);
    }

    /** One turn of the `cleanup_old_logs` loop: the file at `i` goes, with its info line, when it is stale. */
    method CleanupStep(files: seq<LogFile>, i: nat, cutoff: int, caller: Caller, json: Context -> string, ghost before: seq<string>)
      requires i < |files|
      requires directory == Some(Survivors(files[..i], cutoff) + files[i..])
      requires Lines() == before + RemovalLines(Removed(files[..i], cutoff), caller, json)
      modifies this
      ensures directory == Some(Survivors(files[..i + 1], cutoff) + files[i + 1..])
      ensures Lines() == before + RemovalLines(Removed(files[..i + 1], cutoff), caller, json)
      ensures metrics == old(metrics) && debugLog == old(debugLog)
    {
      CleanupStepFacts(files, i, cutoff, caller, json);
      if Stale(files[i], cutoff) {
        directory := Some(Survivors(files[..i + 1], cutoff) + files[i + 1..]);
        LogRemoval(files[i], caller, json);
      }
    }

    /** The info line for one deleted file. */
    method LogRemoval(f: LogFile, caller: Caller, json: Context -> string)
      modifies this
      ensures file == Some(old(Lines()) + [RemovalLine(f, caller, json)])
      ensures metrics == old(metrics) && debugLog == old(debugLog) && directory == old(directory)
    {
      Log(caller, DeletedPrefix + f.name, LevelInfo, [], json);
    }
  }

  function RemovalLine(f: LogFile, caller: Caller, json: Context -> string): string {
    FormatLine(caller, LevelInfo, DeletedPrefix + f.name, [], json)
  }

  /** The info lines `cleanup_old_logs` writes for the removed files. */
  function RemovalLines(removed: seq<LogFile>, caller: Caller, json: Context -> string): (r: seq<string>)
    ensures |r| == |removed|
  {
    if removed == [] then []
    else
      RemovalLines(removed[..|removed| - 1], caller, json) + [RemovalLine(removed[|removed| - 1], caller, json)]
  }

  /** What one loop turn of `cleanup_old_logs` does to the survivors and to the removal lines. */
  lemma CleanupStepFacts(files: seq<LogFile>, i: nat, cutoff: int, caller: Caller, json: Context -> string)
    requires i < |files|
    ensures Stale(files[i], cutoff) ==>
      RemovalLines(Removed(files[..i + 1], cutoff), caller, json)
        == RemovalLines(Removed(files[..i], cutoff), caller, json) + [RemovalLine(files[i], caller, json)]
    ensures !Stale(files[i], cutoff) ==>
      && Survivors(files[..i + 1], cutoff) + files[i + 1..] == Survivors(files[..i], cutoff) + files[i..]
      && Removed(files[..i + 1], cutoff) == Removed(files[..i], cutoff)
  {
    var f := files[i];
    assert files[..i + 1] == files[..i] + [f];
    SurvivorsAppend(files[..i], f, cutoff);
    if Stale(f, cutoff) {
      RemovalLinesAppend(Removed(files[..i], cutoff), f, caller, json);
    } else {
      var kept := Survivors(files[..i], cutoff);
      assert files[i..] == [f] + files[i + 1..];
      assert kept + files[i..] == (kept + [f]) + files[i + 1..];
    }
  }

  lemma RemovalLinesAppend(removed: seq<LogFile>, f: LogFile, caller: Caller, json: Context -> string)
    ensures RemovalLines(removed + [f], caller, json)
      == RemovalLines(removed, caller, json) + [RemovalLine(f, caller, json)]
  {
    assert (removed + [f])[..|removed|] == removed;
  }

  lemma {:induction false} SurvivorsAppend(files: seq<LogFile>, f: LogFile, cutoff: int)
    ensures Survivors(files + [f], cutoff) == Survivors(files, cutoff) + (if Stale(f, cutoff) then [] else [f])
    ensures Removed(files + [f], cutoff) == Removed(files, cutoff) + (if Stale(f, cutoff) then [f] else [])
  {
    if files != [] {
      assert (files + [f])[1..] == files[1..] + [f];
      SurvivorsAppend(files[1..], f, cutoff);
    }
  }
}
