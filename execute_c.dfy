/** The C runner: derive the binary's name from the source path, compile with
    gcc, and when that succeeds run the binary once with the given input,
    collecting its output until the child process closes or fails.

    gcc and the child process are not modelled: the compile step is an input
    (`CompileResult`) and the child is the sequence of events its callbacks
    receive (`Event`). The platform is the flag `isWindows`, and the shared
    output directory is the parameter `outputDir`. */
module ExecuteC {
  import opened Wrappers
  import opened Strings

  // ---------------------------------------------------------------------
  // Names and commands
  // ---------------------------------------------------------------------

  /** What Node's `path` module treats as a separator: `/` everywhere, and
      `\` as well on Windows. */
  predicate IsSeparator(c: char, isWindows: bool) {
    c == '/' || (isWindows && c == '\\')
  }

  predicate NoSeparator(s: string, isWindows: bool) {
    forall i :: 0 <= i < |s| ==> !IsSeparator(s[i], isWindows)
  }

  predicate IsAsciiLetter(c: char) {
    ('a' <= c <= 'z') || ('A' <= c <= 'Z')
  }

  /** On Windows, `path.basename` skips a leading drive designator such as `C:`. */
  function DropDrive(p: string, isWindows: bool): string {
    if isWindows && |p| >= 2 && IsAsciiLetter(p[0]) && p[1] == ':' then p[2..] else p
  }

  /** `p` without its trailing separators. */
  function StripTrailingSeparators(p: string, isWindows: bool): string
    decreases |p|
  {
    if p != [] && IsSeparator(p[|p| - 1], isWindows)
    then StripTrailingSeparators(p[..|p| - 1], isWindows)
    else p
  }

  /** The text after the last separator of `p` (all of `p` if it has none). */
  function LastSegment(p: string, isWindows: bool): (r: string)
    ensures NoSeparator(r, isWindows)
    decreases |p|
  {
    if p == [] then ""
    else if IsSeparator(p[|p| - 1], isWindows) then ""
    else LastSegment(p[..|p| - 1], isWindows) + [p[|p| - 1]]
  }

  /** `path.basename(p)`: the last path component, trailing separators ignored. */
  function Basename(p: string, isWindows: bool): (r: string)
    ensures NoSeparator(r, isWindows)
  {
    LastSegment(StripTrailingSeparators(DropDrive(p, isWindows), isWindows), isWindows)
  }

  /** `outputId`: the base name of the source file up to its first `.`. */
  function OutputId(filePath: string, isWindows: bool): (r: string)
    ensures StartsWith(Basename(filePath, isWindows), r)
    ensures '.' !in r
    ensures r == Basename(filePath, isWindows) || Basename(filePath, isWindows)[|r|] == '.'
    ensures NoSeparator(r, isWindows)
  {
    Split(Basename(filePath, isWindows), '.')[0]
  }

  /** The binary's extension: `.exe` on Windows, `.out` elsewhere. */
  function OutputExtension(isWindows: bool): string {
    if isWindows then ".exe" else ".out"
  }

  /** `outputFilename`: the id followed by `.exe` on Windows and `.out` elsewhere. */
  function OutputFilename(filePath: string, isWindows: bool): (r: string)
    ensures r != "" && NoSeparator(r, isWindows)
  {
    var id := OutputId(filePath, isWindows);
    ExtensionHasNoSeparator(isWindows);
    NoSeparatorAppend(id, OutputExtension(isWindows), isWindows);
    id + OutputExtension(isWindows)
  }

  lemma ExtensionHasNoSeparator(isWindows: bool)
    ensures NoSeparator(OutputExtension(isWindows), isWindows)
  {
  }

  lemma NoSeparatorAppend(a: string, b: string, isWindows: bool)
    requires NoSeparator(a, isWindows) && NoSeparator(b, isWindows)
    ensures NoSeparator(a + b, isWindows)
  {
    forall i | 0 <= i < |a + b| ensures !IsSeparator((a + b)[i], isWindows) {
      if i < |a| { assert (a + b)[i] == a[i]; } else { assert (a + b)[i] == b[i - |a|]; }
    }
  }

  /** The separator `path.join` inserts. */
  function PathSeparator(isWindows: bool): (c: char)
    ensures IsSeparator(c, isWindows)
  {
    if isWindows then '\\' else '/'
  }

  /** `outPath = path.join(outputPath, outputFilename)`, for a normalized
      directory without a trailing separator. */
  function OutPath(outputDir: string, filePath: string, isWindows: bool): string {
    outputDir + [PathSeparator(isWindows)] + OutputFilename(filePath, isWindows)
  }

  /** The shell command that compiles the source; it is the same string on
      both platforms. */
  function CompileCommand(filePath: string, outPath: string): string {
    "gcc \"" + filePath + "\" -o \"" + outPath + "\""
  }

  /** The command spawned to run the binary, relative to the output directory. */
  function RunCommand(outputFilename: string, isWindows: bool): string {
    if isWindows then outputFilename else "./" + outputFilename
  }

  // ---------------------------------------------------------------------
  // Properties of the derived names
  // ---------------------------------------------------------------------

  /** The last segment of a path that ends in a separator and a separator-free
      name is that name. */
  lemma {:induction false} LastSegmentOfChild(a: string, s: char, name: string, isWindows: bool)
    requires IsSeparator(s, isWindows) && NoSeparator(name, isWindows)
    ensures LastSegment(a + [s] + name, isWindows) == name
    decreases |name|
  {
    var p := a + [s] + name;
    if name != [] {
      var init := name[..|name| - 1];
      assert p[..|p| - 1] == a + [s] + init;
      LastSegmentOfChild(a, s, init, isWindows);
      assert init + [name[|name| - 1]] == name;
    }
  }

  /** `path.basename` of a child of a directory is the child's name. */
  lemma BasenameOfChild(dir: string, name: string, isWindows: bool)
    requires name != [] && NoSeparator(name, isWindows)
    ensures Basename(dir + [PathSeparator(isWindows)] + name, isWindows) == name
  {
    var s := PathSeparator(isWindows);
    var p := dir + [s] + name;
    var d := DropDrive(p, isWindows);
    var a: string;
    if d == p {
      a := dir;
    } else {
      assert |dir| >= 2;
      a := dir[2..];
      assert d == a + [s] + name;
    }
    assert d == a + [s] + name;
    assert d[|d| - 1] == name[|name| - 1];
    assert StripTrailingSeparators(d, isWindows) == d;
    LastSegmentOfChild(a, s, name, isWindows);
  }

  /** Trailing separators do not change `path.basename`. */
  lemma BasenameIgnoresTrailingSeparator(p: string, s: char, isWindows: bool)
    requires IsSeparator(s, isWindows)
    ensures Basename(p + [s], isWindows) == Basename(p, isWindows)
  {
    var d := DropDrive(p, isWindows);
    assert DropDrive(p + [s], isWindows) == d + [s] by {
      if isWindows && |p| >= 2 && IsAsciiLetter(p[0]) && p[1] == ':' {
        assert (p + [s])[2..] == p[2..] + [s];
      }
    }
    assert (d + [s])[..|d + [s]| - 1] == d;
  }

  /** On Windows `path.basename` skips a drive designator: `C:name` gives
      `name`. */
  lemma BasenameSkipsDrive(letter: char, name: string)
    requires IsAsciiLetter(letter) && NoSeparator(name, true)
    ensures Basename([letter, ':'] + name, true) == name
  {
    assert ([letter, ':'] + name)[2..] == name;
    assert StripTrailingSeparators(name, true) == name;
    LastSegmentWhole(name, true);
  }

  /** The binary lands directly in the output directory, under the derived
      file name (no component of the source path can move it elsewhere). */
  lemma OutPathInOutputDir(outputDir: string, filePath: string, isWindows: bool)
    ensures Basename(OutPath(outputDir, filePath, isWindows), isWindows)
         == OutputFilename(filePath, isWindows)
    ensures OutPath(outputDir, filePath, isWindows)[..|outputDir| + 1]
         == outputDir + [PathSeparator(isWindows)]
    ensures NoSeparator(OutPath(outputDir, filePath, isWindows)[|outputDir| + 1..], isWindows)
  {
    assert OutPath(outputDir, filePath, isWindows)[|outputDir| + 1..] == OutputFilename(filePath, isWindows);
    BasenameOfChild(outputDir, OutputFilename(filePath, isWindows), isWindows);
  }

  /** A separator-free string is its own last segment. */
  lemma {:induction false} LastSegmentWhole(p: string, isWindows: bool)
    requires NoSeparator(p, isWindows)
    ensures LastSegment(p, isWindows) == p
    decreases |p|
  {
    if p != [] {
      LastSegmentWhole(p[..|p| - 1], isWindows);
    }
  }

  /** The id of a bare file name is its text before the first dot. */
  lemma OutputIdOfPlainName(stem: string, rest: string, isWindows: bool)
    requires NoSeparator(stem + rest, isWindows) && '.' !in stem
    requires rest == [] || rest[0] == '.'
    requires stem + rest != [] && !IsSeparator((stem + rest)[|stem + rest| - 1], isWindows)
    requires DropDrive(stem + rest, isWindows) == stem + rest
    ensures OutputId(stem + rest, isWindows) == stem
  {
    var name := stem + rest;
    assert StripTrailingSeparators(name, isWindows) == name;
    LastSegmentWhole(name, isWindows);
    SplitOfPrefix(stem, rest, '.');
    assert Split(rest, '.')[0] == "";
    assert stem + "" == stem;
  }

  /** The id stops at the first dot: `a.b.c` gives `a`. */
  lemma OutputIdFirstDot()
    ensures OutputId("a.b.c", false) == "a"
  {
    assert "a.b.c" == "a" + ".b.c";
    OutputIdOfPlainName("a", ".b.c", false);
  }

  /** The directory part is ignored: a file `stem.ext` in any directory has
      the id `stem`. */
  lemma OutputIdOfChild(dir: string, stem: string, ext: string, isWindows: bool)
    requires stem + ext != [] && NoSeparator(stem + ext, isWindows) && '.' !in stem
    requires ext == [] || ext[0] == '.'
    ensures OutputId(dir + [PathSeparator(isWindows)] + (stem + ext), isWindows) == stem
  {
    BasenameOfChild(dir, stem + ext, isWindows);
    SplitOfPrefix(stem, ext, '.');
    assert Split(ext, '.')[0] == "";
    assert stem + "" == stem;
  }

  /** A file `stem.ext` in any directory compiles to `stem.out`, or to
      `stem.exe` on Windows. */
  lemma OutputFilenameOfChild(dir: string, stem: string, ext: string, isWindows: bool)
    requires stem + ext != [] && NoSeparator(stem + ext, isWindows) && '.' !in stem
    requires ext == [] || ext[0] == '.'
    ensures OutputFilename(dir + [PathSeparator(isWindows)] + (stem + ext), isWindows)
         == stem + (if isWindows then ".exe" else ".out")
  {
    OutputIdOfChild(dir, stem, ext, isWindows);
  }

  /** The command is spawned with the output directory as its working
      directory, and names the file gcc writes there: `./` and that file's
      name on POSIX, the bare name on Windows, so from that directory it
      resolves to `outPath`. Its base name is the output file's (unless the
      file name itself begins like a drive, `C:`, which Node's Windows path
      functions would read as one). */
  lemma RunCommandNamesOutput(outputDir: string, filePath: string, isWindows: bool)
    requires DropDrive(OutputFilename(filePath, isWindows), isWindows) == OutputFilename(filePath, isWindows)
    ensures CommandsFor(filePath, isWindows, outputDir).cwd == outputDir
    ensures RunCommand(OutputFilename(filePath, isWindows), isWindows)
         == (if isWindows then "" else "./") + Basename(OutPath(outputDir, filePath, isWindows), isWindows)
    ensures OutPath(outputDir, filePath, isWindows)
         == CommandsFor(filePath, isWindows, outputDir).cwd + [PathSeparator(isWindows)]
            + Basename(OutPath(outputDir, filePath, isWindows), isWindows)
    ensures Basename(RunCommand(OutputFilename(filePath, isWindows), isWindows), isWindows)
         == Basename(OutPath(outputDir, filePath, isWindows), isWindows)
  {
    var name := OutputFilename(filePath, isWindows);
    OutPathInOutputDir(outputDir, filePath, isWindows);
    if isWindows {
      assert StripTrailingSeparators(name, isWindows) == name;
      LastSegmentWhole(name, isWindows);
    } else {
      assert RunCommand(name, isWindows) == "." + [PathSeparator(isWindows)] + name;
      BasenameOfChild(".", name, isWindows);
    }
  }

  // ---------------------------------------------------------------------
  // How the shell sees the compile command
  // ---------------------------------------------------------------------

  /** The double-quoted words of a command line, in order (an unterminated
      quote yields nothing). */
  function QuotedArgs(cmd: string): (r: seq<string>)
    ensures forall i :: 0 <= i < |r| ==> '"' !in r[i]
    decreases |cmd|
  {
    if cmd == [] then []
    else if cmd[0] != '"' then QuotedArgs(cmd[1..])
    else
      var body := Split(cmd[1..], '"')[0];
      if |body| == |cmd| - 1 then [] else [body] + QuotedArgs(cmd[|body| + 2..])
  }

  lemma {:induction false} QuotedArgsSkip(a: string, rest: string)
    requires '"' !in a
    ensures QuotedArgs(a + rest) == QuotedArgs(rest)
    decreases |a|
  {
    if a != [] {
      assert (a + rest)[1..] == a[1..] + rest;
      QuotedArgsSkip(a[1..], rest);
    } else {
      assert a + rest == rest;
    }
  }

  lemma QuotedArgsWord(w: string, rest: string)
    requires '"' !in w
    ensures QuotedArgs("\"" + w + "\"" + rest) == [w] + QuotedArgs(rest)
  {
    var cmd := "\"" + w + "\"" + rest;
    assert cmd[1..] == w + ("\"" + rest);
    SplitOfPrefix(w, "\"" + rest, '"');
    assert w + "" == w;
    assert cmd[|w| + 2..] == rest;
  }

  /** The quotes delimit the source path and the output path exactly when
      neither contains a double quote; a quote inside a path splits it. */
  lemma CompileCommandQuoting(filePath: string, outPath: string)
    ensures QuotedArgs(CompileCommand(filePath, outPath)) == [filePath, outPath]
        <==> '"' !in filePath && '"' !in outPath
  {
    if '"' !in filePath && '"' !in outPath {
      var tail := "\"" + outPath + "\"" + "";
      var mid := " -o " + tail;
      assert CompileCommand(filePath, outPath) == "gcc " + ("\"" + filePath + "\"" + mid);
      QuotedArgsSkip("gcc ", "\"" + filePath + "\"" + mid);
      QuotedArgsWord(filePath, mid);
      QuotedArgsSkip(" -o ", tail);
      QuotedArgsWord(outPath, "");
      assert QuotedArgs("") == [];
      assert QuotedArgs(tail) == [outPath];
      assert QuotedArgs(mid) == [outPath];
      assert QuotedArgs("\"" + filePath + "\"" + mid) == [filePath, outPath];
    } else {
      var q := QuotedArgs(CompileCommand(filePath, outPath));
      if |q| == 2 {
        assert '"' !in q[0] && '"' !in q[1];
      }
    }
  }

  // ---------------------------------------------------------------------
  // The run phase
  // ---------------------------------------------------------------------

  datatype Stream = Out | Err

  /** What the child process reports: a chunk on stdout or stderr, `close`
      with an exit code (`None` for JavaScript's `null`, a signal kill) or
      `error` (the process could not be spawned). */
  datatype Event =
    | Data(stream: Stream, chunk: string)
    | Close(code: Option<int>)
    | Error(err: string)

  /** What gcc's `exec` callback receives. */
  datatype CompileResult =
    | CompileOk
    | CompileFailed(error: string, stderr: string)

  datatype Rejection =
    | CompileError(error: string)
    | ExitError(message: string)
    | SpawnError(error: string)

  /** How the runner's promise settles: `resolve({stdout, stderr})` or
      `reject({error, stderr})`. */
  datatype Settlement =
    | Resolved(stdout: string, stderr: string)
    | Rejected(reason: Rejection, stderr: string)

  /** What the runner does to the outside world, in order. */
  datatype Action =
    | RunShell(command: string)
    | Spawn(command: string, cwd: string)
    | WriteStdin(data: string)
    | EndStdin

  /** The message for a non-zero (or `null`) exit code: `Process exited with code <code>`. */
  function ExitMessage(code: Option<int>): string {
    "Process exited with code " + (if code.Some? then IntToString(code.value) else "null")
  }

  /** Different exit codes give different messages; `null` is told apart
      from every number. */
  lemma ExitMessageInjective(a: Option<int>, b: Option<int>)
    requires ExitMessage(a) == ExitMessage(b)
    ensures a == b
  {
    var prefix := "Process exited with code ";
    var ta := if a.Some? then IntToString(a.value) else "null";
    var tb := if b.Some? then IntToString(b.value) else "null";
    assert ExitMessage(a)[|prefix|..] == ta;
    assert ExitMessage(b)[|prefix|..] == tb;
    if a.Some? && b.Some? {
      IntToStringInjective(a.value, b.value);
    }
  }

  /** The chunk an event adds to a stream's buffer. */
  function Chunk(e: Event, s: Stream): string {
    if e.Data? && e.stream == s then e.chunk else ""
  }

  /** The buffer of one stream after a sequence of events: `stdout += data`
      (or `stderr += data`) once per data event of that stream, in order. */
  function Collected(events: seq<Event>, s: Stream): string
    decreases |events|
  {
    if events == [] then ""
    else Collected(events[..|events| - 1], s) + Chunk(events[|events| - 1], s)
  }

  /** Collecting distributes over concatenation of event sequences. */
  lemma {:induction false} CollectedAppend(a: seq<Event>, b: seq<Event>, s: Stream)
    ensures Collected(a + b, s) == Collected(a, s) + Collected(b, s)
    decreases |b|
  {
    if b == [] {
      assert a + b == a;
    } else {
      var b' := b[..|b| - 1];
      assert (a + b)[..|a + b| - 1] == a + b';
      CollectedAppend(a, b', s);
    }
  }

  /** The two streams never mix: a chunk on one stream leaves the other's
      buffer as it was, and is appended as a whole to its own. */
  lemma StreamsDoNotMix(before: seq<Event>, after: seq<Event>, s: Stream, chunk: string)
    ensures Collected(before + [Data(s, chunk)] + after, s)
         == Collected(before, s) + chunk + Collected(after, s)
    ensures forall t :: t != s ==>
              Collected(before + [Data(s, chunk)] + after, t) == Collected(before + after, t)
  {
    forall t
      ensures Collected(before + [Data(s, chunk)] + after, t)
           == Collected(before, t) + Chunk(Data(s, chunk), t) + Collected(after, t)
    {
      CollectedAppend(before + [Data(s, chunk)], after, t);
      CollectedAppend(before, [Data(s, chunk)], t);
      assert Collected([Data(s, chunk)], t) == Chunk(Data(s, chunk), t) by {
        assert [Data(s, chunk)][..0] == [];
      }
    }
    forall t | t != s
      ensures Collected(before + [Data(s, chunk)] + after, t) == Collected(before + after, t)
    {
      CollectedAppend(before, after, t);
    }
  }

  predicate Settles(e: Event) {
    e.Close? || e.Error?
  }

  /** How the `close` and `error` handlers settle the promise, given the
      buffers collected so far. */
  function SettleBy(e: Event, stdout: string, stderr: string): (r: Option<Settlement>)
    ensures r.Some? <==> Settles(e)
  {
    match e
    case Data(_, _) => None
    case Close(code) =>
      if code == Some(0) then Some(Resolved(stdout, stderr))
      else Some(Rejected(ExitError(ExitMessage(code)), stderr))
    case Error(err) => Some(Rejected(SpawnError(err), stderr))
  }

  /** The state of the promise after a sequence of events: a promise settles
      once, so later `resolve`/`reject` calls have no effect. */
  function SettleOf(events: seq<Event>): Option<Settlement>
    decreases |events|
  {
    if events == [] then None
    else
      var init := events[..|events| - 1];
      var prior := SettleOf(init);
      if prior.Some? then prior
      else SettleBy(events[|events| - 1], Collected(init, Out), Collected(init, Err))
  }

  /** Once settled, later events never change the result. */
  lemma {:induction false} FirstSettlementWins(a: seq<Event>, b: seq<Event>)
    requires SettleOf(a).Some?
    ensures SettleOf(a + b) == SettleOf(a)
    decreases |b|
  {
    if b == [] {
      assert a + b == a;
    } else {
      var b' := b[..|b| - 1];
      assert (a + b)[..|a + b| - 1] == a + b';
      FirstSettlementWins(a, b');
    }
  }

  /** Without a `close` or `error` event the promise stays pending: the
      runner has no timeout of its own. */
  lemma {:induction false} PendingWithoutSettlingEvent(events: seq<Event>)
    requires forall j :: 0 <= j < |events| ==> !Settles(events[j])
    ensures SettleOf(events) == None
    decreases |events|
  {
    if events != [] {
      PendingWithoutSettlingEvent(events[..|events| - 1]);
    }
  }

  /** Any `close` or `error` event settles the promise. */
  lemma {:induction false} SettlingEventSettles(events: seq<Event>, k: nat)
    requires k < |events| && Settles(events[k])
    ensures SettleOf(events).Some?
    decreases |events|
  {
    if k < |events| - 1 {
      var init := events[..|events| - 1];
      SettlingEventSettles(init, k);
    }
  }

  /** The promise is pending exactly when no `close` or `error` event occurred. */
  lemma PendingIff(events: seq<Event>)
    ensures SettleOf(events) == None <==> forall j :: 0 <= j < |events| ==> !Settles(events[j])
  {
    if forall j :: 0 <= j < |events| ==> !Settles(events[j]) {
      PendingWithoutSettlingEvent(events);
    } else {
      var k :| 0 <= k < |events| && Settles(events[k]);
      SettlingEventSettles(events, k);
    }
  }

  /** Up to and including the first settling event, the promise settles by
      that event with the buffers collected before it. */
  lemma SettleOfUpTo(events: seq<Event>, k: nat)
    requires k < |events|
    requires forall j :: 0 <= j < k ==> !Settles(events[j])
    ensures SettleOf(events[..k + 1])
         == SettleBy(events[k], Collected(events[..k], Out), Collected(events[..k], Err))
  {
    var upto := events[..k + 1];
    assert upto[..k] == events[..k];
    assert upto[k] == events[k];
    PendingWithoutSettlingEvent(events[..k]);
  }

  /** A sequence is its first `n` elements followed by the rest. */
  lemma TakeDrop<T>(xs: seq<T>, n: nat)
    requires n <= |xs|
    ensures xs[..n] + xs[n..] == xs
  {
  }

  /** The first settling event fixes the result for the whole sequence. */
  lemma SettledByFirstEvent(events: seq<Event>, k: nat)
    requires k < |events| && Settles(events[k])
    requires forall j :: 0 <= j < k ==> !Settles(events[j])
    ensures SettleOf(events)
         == SettleBy(events[k], Collected(events[..k], Out), Collected(events[..k], Err))
  {
    var upto, rest := events[..k + 1], events[k + 1..];
    var first := SettleBy(events[k], Collected(events[..k], Out), Collected(events[..k], Err));
    SettleOfUpTo(events, k);
    assert SettleOf(upto) == first && first.Some?;
    FirstSettlementWins(upto, rest);
    TakeDrop(events, k + 1);
    calc {
      SettleOf(events);
      SettleOf(upto + rest);
      SettleOf(upto);
    }
  }

  /** Whichever of `close` and `error` comes first decides the result, and it
      carries the buffers collected before it: code 0 resolves with both
      buffers, any other code (`null` included) rejects with the exit message,
      and `error` rejects with the error; each rejection carries stderr. */
  lemma SettledByFirst(events: seq<Event>, k: nat)
    requires k < |events| && Settles(events[k])
    requires forall j :: 0 <= j < k ==> !Settles(events[j])
    ensures events[k] == Close(Some(0)) ==>
              SettleOf(events) == Some(Resolved(Collected(events[..k], Out), Collected(events[..k], Err)))
    ensures events[k].Close? && events[k].code != Some(0) ==>
              SettleOf(events) == Some(Rejected(ExitError(ExitMessage(events[k].code)), Collected(events[..k], Err)))
    ensures events[k].Error? ==>
              SettleOf(events) == Some(Rejected(SpawnError(events[k].err), Collected(events[..k], Err)))
  {
    SettledByFirstEvent(events, k);
  }

  /** The two commands of one run and the run's working directory. */
  datatype Commands = Commands(compileCommand: string, runCommand: string, cwd: string)

  /** The commands `executeC` builds for a source path: gcc writing the
      binary to `outPath`, and the binary run from the output directory. */
  function CommandsFor(filePath: string, isWindows: bool, outputDir: string): Commands {
    Commands(CompileCommand(filePath, OutPath(outputDir, filePath, isWindows)),
             RunCommand(OutputFilename(filePath, isWindows), isWindows),
             outputDir)
  }

  /** The actions of one run: the compile command always; then, only if it
      succeeded, the spawn in the output directory, the whole input written
      to stdin, and stdin closed. */
  function Actions(cmds: Commands, input: string, compile: CompileResult): (r: seq<Action>)
    ensures |r| >= 1 && r[0] == RunShell(cmds.compileCommand)
    ensures compile.CompileFailed? ==> |r| == 1
    ensures compile.CompileOk? ==>
              |r| == 4 && r[1] == Spawn(cmds.runCommand, cmds.cwd)
              && r[2] == WriteStdin(input) && r[3] == EndStdin
  {
    if compile.CompileFailed? then [RunShell(cmds.compileCommand)]
    else [RunShell(cmds.compileCommand), Spawn(cmds.runCommand, cmds.cwd), WriteStdin(input), EndStdin]
  }

  /** How many processes a sequence of actions spawns. */
  function SpawnCount(actions: seq<Action>): nat
    decreases |actions|
  {
    if actions == [] then 0
    else (if actions[0].Spawn? then 1 else 0) + SpawnCount(actions[1..])
  }

  /** A failed compile spawns nothing; a successful one spawns exactly one
      process. */
  lemma SpawnOnlyAfterCompile(cmds: Commands, input: string, compile: CompileResult)
    ensures SpawnCount(Actions(cmds, input, compile)) == if compile.CompileOk? then 1 else 0
  {
    var r := Actions(cmds, input, compile);
    if compile.CompileOk? {
      assert SpawnCount(r[3..]) == 0 by { assert r[3..][1..] == []; }
      assert SpawnCount(r[2..]) == 0 by { assert r[2..][1..] == r[3..]; }
      assert SpawnCount(r[1..]) == 1 by { assert r[1..][1..] == r[2..]; }
    } else {
      assert r[1..] == [];
    }
  }

  /** The run phase: spawn, write the whole input and close stdin, then
      let the child's callbacks fire in order. `stdout` and `stderr` grow by
      each chunk; the first `close` or `error` settles the promise with the
      buffers as they stand at that moment. */
  method Run(cmds: Commands, input: string, events: seq<Event>)
    returns (actions: seq<Action>, settlement: Option<Settlement>)
    ensures actions == [Spawn(cmds.runCommand, cmds.cwd), WriteStdin(input), EndStdin]
    ensures settlement == SettleOf(events)
  {
    actions := [Spawn(cmds.runCommand, cmds.cwd)];
    var stdout, stderr := "", "";
    actions := actions + [WriteStdin(input)];
    actions := actions + [EndStdin];
    settlement := None;
    var i := 0;
    while i < |events|
      invariant 0 <= i <= |events|
      invariant stdout == Collected(events[..i], Out)
      invariant stderr == Collected(events[..i], Err)
      invariant settlement == SettleOf(events[..i])
      decreases |events| - i
    {
      assert events[..i + 1][..i] == events[..i];
      match events[i] {
        case Data(s, chunk) =>
          if s == Out {
            stdout := stdout + chunk;
          } else {
            stderr := stderr + chunk;
          }
        case Close(code) =>
          if settlement.None? {
            if code != Some(0) {
              settlement := Some(Rejected(ExitError(ExitMessage(code)), stderr));
            } else {
              settlement := Some(Resolved(stdout, stderr));
            }
          }
        case Error(err) =>
          if settlement.None? {
            settlement := Some(Rejected(SpawnError(err), stderr));
          }
      }
      i := i + 1;
    }
    assert events[..|events|] == events;
  }

  /** `executeC(filePath, input)`: the actions it performs and how its promise
      settles (`None` while pending). A failed compile rejects with gcc's
      error and stderr, and nothing is spawned; otherwise the promise settles
      as the child's events dictate. */
  method Execute(filePath: string, input: string, isWindows: bool, outputDir: string,
                 compile: CompileResult, events: seq<Event>)
    returns (actions: seq<Action>, settlement: Option<Settlement>)
    ensures actions == Actions(CommandsFor(filePath, isWindows, outputDir), input, compile)
    ensures compile.CompileFailed? ==>
              settlement == Some(Rejected(CompileError(compile.error), compile.stderr))
    ensures compile.CompileOk? ==> settlement == SettleOf(events)
  {
    var cmds := CommandsFor(filePath, isWindows, outputDir);
    actions := [RunShell(cmds.compileCommand)];
    if compile.CompileFailed? {
      settlement := Some(Rejected(CompileError(compile.error), compile.stderr));
      assert actions == Actions(cmds, input, compile);
      return;
    }
    var runActions;
    runActions, settlement := Run(cmds, input, events);
    actions := actions + runActions;
    assert actions == Actions(cmds, input, compile);
  }
}
