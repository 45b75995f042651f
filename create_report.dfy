/**
 * sstow's `create` callback and the text the first entry pass writes.
 *
 * `create` prints exactly one line per invocation: "mkdir <source path>"
 * when lstat saw a directory, "<source path> -> <target path>" otherwise.
 * The model returns the line instead of printing it; standard output of
 * the pass is the lines of its invocations in order, and a pass that dies
 * leaves the diagnostic "lstat <entry name>" for standard error.
 */
module CreateReport {
  import opened Paths
  import opened DirectoryPass

  const Newline: char := '\n'

  /** `s` is one complete output line: a newline at its end and nowhere else. */
  predicate IsLine(s: string)
  {
    |s| > 0 && s[|s| - 1] == Newline && Newline !in s[..|s| - 1]
  }

  /** The line `create` prints for one invocation. */
  function CreateLine(c: Call): (line: string)
    ensures |line| > 0 && line[|line| - 1] == Newline
    ensures Newline !in c.rootPath && Newline !in c.targetPath ==> IsLine(line)
  {
    if c.isDir then "mkdir " + c.rootPath + [Newline]
    else c.rootPath + " -> " + c.targetPath + [Newline]
  }

  /**
   * A directory is logged by its source path alone: its line is "mkdir "
   * followed by the source path, and the target path plays no part in it.
   */
  lemma CreateDirIgnoresTarget(c: Call, otherTarget: string)
    requires c.isDir
    ensures CreateLine(c) == CreateLine(c.(targetPath := otherTarget))
    ensures CreateLine(c)[..6] == "mkdir " && CreateLine(c)[6..|CreateLine(c)| - 1] == c.rootPath
  {
  }

  /** Everything written to standard output by a run of callbacks, in call order. */
  function Emitted(calls: seq<Call>): string
    decreases |calls|
  {
    if calls == [] then ""
    else CreateLine(calls[0]) + Emitted(calls[1..])
  }

  /** Length of the first line of `s`, counting its newline if it has one. */
  function FirstLineLength(s: string): (k: nat)
    requires s != []
    ensures 0 < k <= |s|
    ensures Newline !in s[..k - 1]
    ensures k < |s| ==> s[k - 1] == Newline
    decreases |s|
  {
    if s[0] == Newline || |s| == 1 then 1
    else 1 + FirstLineLength(s[1..])
  }

  /** Splits text into lines, each keeping its newline. */
  function Lines(s: string): seq<string>
    decreases |s|
  {
    if s == [] then []
    else
      var k := FirstLineLength(s);
      [s[..k]] + Lines(s[k..])
  }

  /** The first line of `line + rest` is `line` when `line` is one complete line. */
  lemma {:induction false} FirstLineLengthOfLine(line: string, rest: string)
    requires IsLine(line)
    ensures FirstLineLength(line + rest) == |line|
    decreases |line|
  {
    var s := line + rest;
    if |line| > 1 {
      assert s[0] == line[..|line| - 1][0] != Newline;
      var tail := line[1..];
      var body := line[..|line| - 1];
      assert tail[..|tail| - 1] == body[1..];
      assert Newline !in body[1..] by {
        forall j | 0 <= j < |body| - 1 ensures body[1..][j] != Newline {
          assert body[1..][j] == body[j + 1];
        }
      }
      assert s[1..] == tail + rest;
      FirstLineLengthOfLine(tail, rest);
    }
  }

  /** Splitting after a complete line yields that line first. */
  lemma {:induction false} LinesCons(line: string, rest: string)
    requires IsLine(line)
    ensures Lines(line + rest) == [line] + Lines(rest)
  {
    FirstLineLengthOfLine(line, rest);
    assert (line + rest)[..|line|] == line;
    assert (line + rest)[|line|..] == rest;
  }

  /** The output lines the callbacks produce, one per invocation. */
  function CreateLines(calls: seq<Call>): seq<string>
  {
    seq(|calls|, i requires 0 <= i < |calls| => CreateLine(calls[i]))
  }

  /** Prepending an invocation prepends its line. */
  lemma CreateLinesCons(c: Call, calls: seq<Call>)
    ensures CreateLines([c] + calls) == [CreateLine(c)] + CreateLines(calls)
  {
  }

  /** No path handed to the callback holds a newline. */
  predicate NewlineFreePaths(calls: seq<Call>)
  {
    forall i :: 0 <= i < |calls| ==>
      Newline !in calls[i].rootPath && Newline !in calls[i].targetPath
  }

  /**
   * Exactly one line per invocation: when no path holds a newline, the
   * output splits into the invocations' lines, in call order.
   */
  lemma {:induction false} EmittedLines(calls: seq<Call>)
    requires NewlineFreePaths(calls)
    ensures Lines(Emitted(calls)) == CreateLines(calls)
    decreases |calls|
  {
    if calls != [] {
      var first, rest := calls[0], calls[1..];
      assert NewlineFreePaths(rest) by {
        forall i | 0 <= i < |rest|
          ensures Newline !in rest[i].rootPath && Newline !in rest[i].targetPath
        {
          assert rest[i] == calls[i + 1];
        }
      }
      EmittedLines(rest);
      assert Emitted(calls) == CreateLine(first) + Emitted(rest);
      LinesCons(CreateLine(first), Emitted(rest));
      CreateLinesCons(first, rest);
      assert calls == [first] + rest;
    }
  }

  /** Joining two newline-free strings gives a newline-free path. */
  lemma JoinNewlineFree(s1: string, s2: string)
    requires Newline !in s1 && Newline !in s2
    ensures Newline !in Join(s1, s2)
  {
    assert Join(s1, s2) == s1 + [Separator] + s2;
  }

  /** What the first entry pass leaves: its standard output and, if it died, its diagnostic. */
  datatype Report = Report(stdout: string, diagnostic: Option<string>)

  /** The report of a pass outcome; a diagnostic means the program exits with status 1. */
  function FirstPassReport(o: Outcome): Report
  {
    Report(Emitted(o.calls),
           if o.Aborted? then Some("lstat " + o.failedName) else None)
  }

  /**
   * The first entry pass end to end: with newline-free roots and names, it
   * prints one line per visited entry, in listing order, up to the first
   * visited entry whose lstat fails, and then dies naming that entry; when no
   * visited entry fails, it prints one line for every visited entry.
   */
  lemma {:induction false} FirstPassOutput(rootName: string, targetName: string, listing: seq<Entry>)
    requires Newline !in rootName && Newline !in targetName
    requires forall e :: e in listing ==> Newline !in e.name
    ensures var r, v := FirstPassReport(EntryPass(rootName, targetName, listing)), Visible(listing);
            var k := StatOkPrefix(v);
            Lines(r.stdout) == CreateLines(CallsFor(rootName, targetName, v[..k])) &&
            r.diagnostic == (if k < |v| then Some("lstat " + v[k].name) else None)
  {
    EntryPassCharacterized(rootName, targetName, listing);
    VisibleMembers(listing);
    var v := Visible(listing);
    var k := StatOkPrefix(v);
    var calls := CallsFor(rootName, targetName, v[..k]);
    assert k == |v| ==> v[..k] == v;
    forall i | 0 <= i < |calls|
      ensures Newline !in calls[i].rootPath && Newline !in calls[i].targetPath
    {
      assert v[i] in v;
      JoinNewlineFree(rootName, v[i].name);
      JoinNewlineFree(targetName, v[i].name);
    }
    EmittedLines(calls);
  }
}
