/** Who is a daemon of this project, by what /proc shows of it: its command
    line and environment as NUL-joined texts, its executable, its start time. */
module DaemonIdentity {
  import opened Wrappers
  import opened Processes

  // filepath.Clean and filepath.Base.
  datatype Paths = Paths(clean: string -> string, base: string -> string)

  function Split(s: string, separator: char): (parts: seq<string>)
    ensures parts != []
  {
    if s == "" then [""]
    else if s[0] == separator then [""] + Split(s[1..], separator)
    else var rest := Split(s[1..], separator); [[s[0]] + rest[0]] + rest[1..]
  }

  predicate HasSuffix(s: string, suffix: string) {
    |suffix| <= |s| && s[|s| - |suffix|..] == suffix
  }

  predicate IsCodegraphCmdline(paths: Paths, cmdline: string) {
    var argv0 := Split(cmdline, '\0')[0];
    var cleaned := paths.clean(argv0);
    && argv0 != ""
    && (|| paths.base(argv0) in ["codegraph", "codegraph-go"]
        || "codegraph-go" in Split(cleaned, '/')
        || cleaned == "codegraph" || HasSuffix(cleaned, "/codegraph") || HasSuffix(cleaned, "/codegraph-go"))
  }

  // The element after the first "-workdir" that has one after it, else "".
  function WorkdirIn(args: seq<string>): string {
    if |args| < 2 then "" else if args[0] == "-workdir" then args[1] else WorkdirIn(args[1..])
  }

  function CmdlineWorkdir(cmdline: string): string {
    if cmdline == "" then "" else WorkdirIn(Split(cmdline, '\0'))
  }

  predicate HasDaemonEnvMarker(environ: string) {
    environ != "" && "CODEGRAPH_DAEMON_INTERNAL=1" in Split(environ, '\0')
  }

  predicate IsInvisibleHolder(paths: Paths, root: string, cmdline: string, environ: string) {
    && cmdline != "" && environ != ""
    && IsCodegraphCmdline(paths, cmdline)
    && CmdlineWorkdir(cmdline) != "" && paths.clean(CmdlineWorkdir(cmdline)) == paths.clean(root)
    && HasDaemonEnvMarker(environ)
  }

  predicate CmdlineWorkdirMatches(paths: Paths, cmdline: string, root: string) {
    root != "" && CmdlineWorkdir(cmdline) != "" && paths.clean(CmdlineWorkdir(cmdline)) == paths.clean(root)
  }

  predicate IsSelfBinary(paths: Paths, self: string, exe: string) {
    self != "" && paths.clean(exe) == paths.clean(self)
  }

  // The record a pidfile keeps of its daemon.
  datatype LockInfo = LockInfo(pid: int, start: int, startedAt: int)

  // halfDeadStartupGrace, in milliseconds.
  const STARTUP_GRACE := 3000

  // The pidfile says that its daemon was started moments ago.
  predicate Young(lock: Option<LockInfo>, now: int) {
    lock.Some? && lock.value.pid > 0 && lock.value.startedAt > 0 && now - lock.value.startedAt < STARTUP_GRACE
  }

  // What verifyDaemonIdentity asks of the target's own facts.
  predicate IsRecordedDaemon(paths: Paths, self: string, info: LockInfo, root: string, facts: Facts) {
    && info.start > 0 && facts.start == info.start
    && CmdlineWorkdirMatches(paths, facts.cmdline, root)
    && ((facts.exe != "" && IsSelfBinary(paths, self, facts.exe)) || HasDaemonEnvMarker(facts.environ))
  }

  lemma EmptyIsNoHolder(paths: Paths, root: string, cmdline: string, environ: string)
    requires IsInvisibleHolder(paths, root, cmdline, environ)
    ensures cmdline != "" && environ != ""
  {
  }

  // ---- The same of the argument list and the environment ----------------------------------

  function Join(parts: seq<string>, separator: char): string
    requires parts != []
  {
    if |parts| == 1 then parts[0] else parts[0] + [separator] + Join(parts[1..], separator)
  }

  lemma {:induction false} SplitHead(head: string, separator: char, rest: string)
    requires separator !in head
    ensures Split(head, separator) == [head]
    ensures Split(head + [separator] + rest, separator) == [head] + Split(rest, separator)
  {
    if head == "" {
      assert (head + [separator] + rest)[1..] == rest;
    } else {
      SplitHead(head[1..], separator, rest);
      assert (head + [separator] + rest)[1..] == head[1..] + [separator] + rest;
      assert [head[0]] + head[1..] == head;
    }
  }

  // Splitting takes a joined text apart again.
  lemma {:induction false} SplitJoins(parts: seq<string>, separator: char)
    requires parts != [] && forall p :: p in parts ==> separator !in p
    ensures Split(Join(parts, separator), separator) == parts
  {
    assert parts[0] in parts;
    if |parts| == 1 {
      SplitHead(parts[0], separator, "");
    } else {
      assert forall p :: p in parts[1..] ==> p in parts;
      SplitJoins(parts[1..], separator);
      SplitHead(parts[0], separator, Join(parts[1..], separator));
    }
  }

  // args[i] is the first -workdir with a value behind it.
  predicate FirstWorkdir(args: seq<string>, i: int) {
    && 0 <= i < |args| - 1 && args[i] == "-workdir"
    && forall j :: 0 <= j < i ==> args[j] != "-workdir"
  }

  lemma {:induction false} WorkdirFound(args: seq<string>)
    ensures WorkdirIn(args) != "" ==> exists i :: FirstWorkdir(args, i)
    ensures forall i :: FirstWorkdir(args, i) ==> WorkdirIn(args) == args[i + 1]
  {
    if |args| >= 2 {
      if args[0] == "-workdir" {
        assert FirstWorkdir(args, 0);
      } else {
        WorkdirFound(args[1..]);
        if WorkdirIn(args) != "" {
          var i :| FirstWorkdir(args[1..], i);
          assert FirstWorkdir(args, i + 1);
        }
        forall i | FirstWorkdir(args, i)
          ensures WorkdirIn(args) == args[i + 1]
        {
          assert FirstWorkdir(args[1..], i - 1);
        }
      }
    }
  }

  lemma {:induction false} JoinEmpty(parts: seq<string>, separator: char)
    requires parts != []
    ensures Join(parts, separator) == "" <==> parts == [""]
  {
  }

  // The program's path names codegraph: by its base name, by a segment of the
  // cleaned path, or by the last one.
  ghost predicate NamesCodegraph(paths: Paths, program: string, segments: seq<string>) {
    || paths.base(program) == "codegraph" || paths.base(program) == "codegraph-go"
    || "codegraph-go" in segments || (segments != [] && segments[|segments| - 1] == "codegraph")
  }

  lemma {:induction false} LastSegment(segments: seq<string>, word: string)
    requires segments != [] && '/' !in word && forall p :: p in segments ==> '/' !in p
    ensures var s := Join(segments, '/');
            (s == word || HasSuffix(s, "/" + word)) <==> segments[|segments| - 1] == word
  {
    var s := Join(segments, '/');
    if |segments| == 1 {
      assert segments[0] in segments;
      SlashOfSuffix(s, word);
    } else {
      var rest := Join(segments[1..], '/');
      assert forall p :: p in segments[1..] ==> p in segments;
      LastSegment(segments[1..], word);
      assert s == segments[0] + "/" + rest;
      SuffixOfRest(segments[0], rest, word);
      assert s[|segments[0]|] == '/';
      assert '/' in s;
    }
  }

  lemma SlashOfSuffix(s: string, word: string)
    ensures HasSuffix(s, "/" + word) ==> '/' in s
  {
    if HasSuffix(s, "/" + word) {
      assert s[|s| - |word| - 1] == ("/" + word)[0];
    }
  }

  lemma SlashInWord(head: string, rest: string, word: string)
    requires HasSuffix(head + "/" + rest, "/" + word) && |rest| < |word|
    ensures '/' in word
  {
    var s, t := head + "/" + rest, "/" + word;
    var at := |s| - |rest| - 1;
    assert s[at] == '/';
    assert s[|s| - |t|..][at - (|s| - |t|)] == s[at];
    assert t[at - (|s| - |t|)] == word[at - (|s| - |t|) - 1];
  }

  lemma SuffixOfRest(head: string, rest: string, word: string)
    requires '/' !in word
    ensures HasSuffix(head + "/" + rest, "/" + word) <==> rest == word || HasSuffix(rest, "/" + word)
  {
    var s, t := head + "/" + rest, "/" + word;
    assert s == head + ("/" + rest);
    if |rest| >= |t| {
      assert s[|s| - |t|..] == rest[|rest| - |t|..];
    } else if |rest| == |word| {
      assert s[|s| - |t|..] == "/" + rest;
      assert ("/" + rest)[1..] == rest && t[1..] == word;
    } else if HasSuffix(s, t) {
      SlashInWord(head, rest, word);
    }
  }

  lemma NamedByPath(path: string, segments: seq<string>)
    requires segments != [] && (forall p :: p in segments ==> '/' !in p) && path == Join(segments, '/')
    ensures (path == "codegraph" || HasSuffix(path, "/codegraph")) <==> segments[|segments| - 1] == "codegraph"
    ensures HasSuffix(path, "/codegraph-go") ==> "codegraph-go" in segments
  {
    hide HasSuffix, Join;
    LastSegment(segments, "codegraph");
    LastSegment(segments, "codegraph-go");
    assert segments[|segments| - 1] in segments;
    assert "/" + "codegraph" == "/codegraph" && "/" + "codegraph-go" == "/codegraph-go";
  }

  // Codegraph by argument list: what the daemon test asks of a process that was
  // started with these arguments, the segments being those of its cleaned path.
  lemma CodegraphExactly(paths: Paths, args: seq<string>, segments: seq<string>)
    requires args != [] && forall a :: a in args ==> '\0' !in a
    requires segments != [] && (forall p :: p in segments ==> '/' !in p) && paths.clean(args[0]) == Join(segments, '/')
    ensures IsCodegraphCmdline(paths, Join(args, '\0')) <==> args[0] != "" && NamesCodegraph(paths, args[0], segments)
  {
    hide HasSuffix, Join, Split;
    SplitJoins(args, '\0');
    SplitJoins(segments, '/');
    NamedByPath(paths.clean(args[0]), segments);
  }

  // The project directory of an argument list is the first -workdir's value.
  ghost predicate Serves(paths: Paths, args: seq<string>, root: string) {
    exists i :: FirstWorkdir(args, i) && args[i + 1] != "" && paths.clean(args[i + 1]) == paths.clean(root)
  }

  lemma WorkdirExactly(paths: Paths, args: seq<string>, root: string)
    requires args != [] && forall a :: a in args ==> '\0' !in a
    ensures var wd := CmdlineWorkdir(Join(args, '\0'));
            wd != "" && paths.clean(wd) == paths.clean(root) <==> Serves(paths, args, root)
  {
    hide Join;
    SplitJoins(args, '\0');
    WorkdirFound(args);
    JoinEmpty(args, '\0');
  }

  const MARKER := "CODEGRAPH_DAEMON_INTERNAL=1"

  lemma MarkerExactly(env: seq<string>)
    requires env != [] && forall e :: e in env ==> '\0' !in e
    ensures HasDaemonEnvMarker(Join(env, '\0')) <==> MARKER in env
  {
    hide Join;
    SplitJoins(env, '\0');
    JoinEmpty(env, '\0');
  }

  // A process is an invisible holder exactly when it was started as codegraph,
  // for this project directory, with the daemon's mark in its environment.
  lemma HolderExactly(paths: Paths, root: string, args: seq<string>, env: seq<string>, segments: seq<string>)
    requires args != [] && forall a :: a in args ==> '\0' !in a
    requires env != [] && forall e :: e in env ==> '\0' !in e
    requires segments != [] && (forall p :: p in segments ==> '/' !in p) && paths.clean(args[0]) == Join(segments, '/')
    ensures IsInvisibleHolder(paths, root, Join(args, '\0'), Join(env, '\0')) <==>
              args[0] != "" && NamesCodegraph(paths, args[0], segments) && Serves(paths, args, root) && MARKER in env
  {
    hide Join, IsCodegraphCmdline, CmdlineWorkdir, HasDaemonEnvMarker, Serves, NamesCodegraph;
    CodegraphExactly(paths, args, segments);
    WorkdirExactly(paths, args, root);
    MarkerExactly(env);
    JoinEmpty(args, '\0');
    JoinEmpty(env, '\0');
  }

  // A process is the recorded daemon exactly when it was born at the recorded
  // time, serves this project directory, and runs this very program or bears
  // the daemon's mark.
  lemma RecordedExactly(paths: Paths, self: string, info: LockInfo, root: string, start: int, args: seq<string>,
                        env: seq<string>, exe: string)
    requires args != [] && forall a :: a in args ==> '\0' !in a
    requires env != [] && forall e :: e in env ==> '\0' !in e
    ensures IsRecordedDaemon(paths, self, info, root, Facts(start, Join(args, '\0'), Join(env, '\0'), exe)) <==>
              && info.start == start > 0 && root != "" && Serves(paths, args, root)
              && ((exe != "" && self != "" && paths.clean(exe) == paths.clean(self)) || MARKER in env)
  {
    hide Join, CmdlineWorkdir, HasDaemonEnvMarker, Serves;
    WorkdirExactly(paths, args, root);
    MarkerExactly(env);
  }
}
