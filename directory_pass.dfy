/**
 * The first entry pass of sstow's `iter_dirs`: read the entries of one open
 * directory in order, skip "." and "..", join each remaining name onto the
 * package root and onto the target root, lstat the package-side path, and
 * hand the entry, its kind and both paths to a callback.  A failing lstat
 * ends the program (`die`), which the model returns as `Aborted`.
 *
 * The directory stream is a sequence of entries, each carrying what lstat
 * reports for it; the callback invocations are recorded in order.
 */
module DirectoryPass {
  import opened Paths

  /** One entry as readdir returns it, with the outcome of lstat on its source path. */
  datatype Entry = Entry(name: string, isDir: bool, statOk: bool)

  /** One callback invocation: the entry name, whether lstat saw a directory, and both paths. */
  datatype Call = Call(name: string, isDir: bool, rootPath: string, targetPath: string)

  /**
   * How the pass ends: having read the whole stream, or by dying on the entry
   * named `failedName` after the callbacks in `calls` have run.
   */
  datatype Outcome = Finished(calls: seq<Call>) | Aborted(calls: seq<Call>, failedName: string)

  /** The two names the pass skips (exact string comparison). */
  predicate IsDotEntry(name: string)
  {
    name == "." || name == ".."
  }

  /** The invocation the pass makes for a visited entry. */
  function CallFor(rootName: string, targetName: string, e: Entry): Call
  {
    Call(e.name, e.isDir, Join(rootName, e.name), Join(targetName, e.name))
  }

  /** Runs the callbacks in `before` ahead of whatever `o` records. */
  function After(before: seq<Call>, o: Outcome): Outcome
  {
    o.(calls := before + o.calls)
  }

  /** Callbacks run one after another compose by concatenation. */
  lemma AfterAppend(before: seq<Call>, c: Call, o: Outcome)
    ensures After(before + [c], o) == After(before, After([c], o))
  {
    assert before + [c] + o.calls == before + ([c] + o.calls);
  }

  /** The pass, one entry at a time in stream order. */
  function EntryPass(rootName: string, targetName: string, listing: seq<Entry>): Outcome
    decreases |listing|
  {
    if listing == [] then Finished([])
    else
      var e := listing[0];
      if IsDotEntry(e.name) then EntryPass(rootName, targetName, listing[1..])
      else if !e.statOk then Aborted([], e.name)
      else After([CallFor(rootName, targetName, e)], EntryPass(rootName, targetName, listing[1..]))
  }

  /** The entries of a listing other than "." and "..", in listing order. */
  function Visible(listing: seq<Entry>): seq<Entry>
    decreases |listing|
  {
    if listing == [] then []
    else if IsDotEntry(listing[0].name) then Visible(listing[1..])
    else [listing[0]] + Visible(listing[1..])
  }

  /** The visited entries are exactly the listed names other than "." and "..". */
  lemma {:induction false} VisibleMembers(listing: seq<Entry>)
    ensures forall e :: e in Visible(listing) <==> e in listing && !IsDotEntry(e.name)
    decreases |listing|
  {
    if listing != [] {
      VisibleMembers(listing[1..]);
      assert listing == [listing[0]] + listing[1..];
    }
  }

  /** The number of leading entries whose lstat succeeds. */
  function StatOkPrefix(es: seq<Entry>): (k: nat)
    ensures k <= |es|
    ensures forall i :: 0 <= i < k ==> es[i].statOk
    ensures k < |es| ==> !es[k].statOk
    decreases |es|
  {
    if es == [] || !es[0].statOk then 0
    else 1 + StatOkPrefix(es[1..])
  }

  /** The invocations for a run of visited entries, one each, in order. */
  function CallsFor(rootName: string, targetName: string, es: seq<Entry>): seq<Call>
  {
    seq(|es|, i requires 0 <= i < |es| => CallFor(rootName, targetName, es[i]))
  }

  /** Prepending a visited entry prepends its invocation. */
  lemma CallsForCons(rootName: string, targetName: string, e: Entry, es: seq<Entry>)
    ensures CallsFor(rootName, targetName, [e] + es) ==
            [CallFor(rootName, targetName, e)] + CallsFor(rootName, targetName, es)
  {
  }

  /**
   * What the pass does, stated over the whole listing at once: the callback
   * runs once for each visited entry in order; if some visited entry fails
   * lstat, the callbacks stop just before the first such entry and the pass
   * dies naming it.
   */
  function PassSpec(rootName: string, targetName: string, listing: seq<Entry>): Outcome
  {
    var v := Visible(listing);
    var k := StatOkPrefix(v);
    if k == |v| then Finished(CallsFor(rootName, targetName, v))
    else Aborted(CallsFor(rootName, targetName, v[..k]), v[k].name)
  }

  /** The entry-by-entry pass agrees with its whole-listing description. */
  lemma {:induction false} EntryPassCharacterized(rootName: string, targetName: string, listing: seq<Entry>)
    ensures EntryPass(rootName, targetName, listing) == PassSpec(rootName, targetName, listing)
    decreases |listing|
  {
    if listing == [] {
      return;
    }
    var e, rest := listing[0], listing[1..];
    EntryPassCharacterized(rootName, targetName, rest);
    if IsDotEntry(e.name) {
      return;
    }
    var v, v' := Visible(listing), Visible(rest);
    assert v == [e] + v';
    if !e.statOk {
      assert StatOkPrefix(v) == 0;
      return;
    }
    var k' := StatOkPrefix(v');
    assert v[1..] == v';
    assert StatOkPrefix(v) == k' + 1;
    CallsForCons(rootName, targetName, e, v');
    if k' < |v'| {
      assert v[..k' + 1] == [e] + v'[..k'];
      CallsForCons(rootName, targetName, e, v'[..k']);
    }
  }

  /** The pass dies exactly when some entry other than "." and ".." fails lstat. */
  lemma {:induction false} EntryPassAbortsIff(rootName: string, targetName: string, listing: seq<Entry>)
    ensures EntryPass(rootName, targetName, listing).Aborted? <==>
            exists e :: e in listing && !IsDotEntry(e.name) && !e.statOk
  {
    EntryPassCharacterized(rootName, targetName, listing);
    VisibleMembers(listing);
    var v := Visible(listing);
    var k := StatOkPrefix(v);
    if k < |v| {
      assert v[k] in v;
    }
  }

  /**
   * A pass that finishes calls the callback exactly once per entry other
   * than "." and "..", in listing order, with the same name under both roots.
   */
  lemma {:induction false} EntryPassVisitsInOrder(rootName: string, targetName: string, listing: seq<Entry>)
    requires EntryPass(rootName, targetName, listing).Finished?
    ensures var calls, v := EntryPass(rootName, targetName, listing).calls, Visible(listing);
            |calls| == |v| &&
            forall i :: 0 <= i < |v| ==>
              calls[i].name == v[i].name && calls[i].isDir == v[i].isDir &&
              calls[i].rootPath == Join(rootName, v[i].name) &&
              calls[i].targetPath == Join(targetName, v[i].name)
  {
    EntryPassCharacterized(rootName, targetName, listing);
  }

  /**
   * A pass that dies names the first visited entry whose lstat fails; the
   * callback ran for every visited entry before it and for no entry from it on.
   */
  lemma {:induction false} EntryPassStopsAtFailure(rootName: string, targetName: string, listing: seq<Entry>)
    requires EntryPass(rootName, targetName, listing).Aborted?
    ensures var o, v := EntryPass(rootName, targetName, listing), Visible(listing);
            var k := |o.calls|;
            k < |v| && !v[k].statOk && o.failedName == v[k].name &&
            (forall j :: 0 <= j < k ==> v[j].statOk) &&
            o.calls == CallsFor(rootName, targetName, v[..k])
  {
    EntryPassCharacterized(rootName, targetName, listing);
  }

  /**
   * The pass only reports immediate children: when entry names hold no '/',
   * every path handed to the callback is one listed name directly under the
   * package root, paired with that same name directly under the target root.
   */
  lemma {:induction false} EntryPassChildrenOnly(rootName: string, targetName: string, listing: seq<Entry>)
    requires forall e :: e in listing ==> Separator !in e.name
    ensures forall c :: c in EntryPass(rootName, targetName, listing).calls ==>
              SplitLast(c.rootPath) == Some((rootName, c.name)) &&
              SplitLast(c.targetPath) == Some((targetName, c.name)) &&
              exists e :: e in listing && e.name == c.name && !IsDotEntry(e.name)
  {
    EntryPassCharacterized(rootName, targetName, listing);
    VisibleMembers(listing);
    var o, v := EntryPass(rootName, targetName, listing), Visible(listing);
    forall c | c in o.calls
      ensures SplitLast(c.rootPath) == Some((rootName, c.name))
      ensures SplitLast(c.targetPath) == Some((targetName, c.name))
      ensures exists e :: e in listing && e.name == c.name && !IsDotEntry(e.name)
    {
      var i :| 0 <= i < |o.calls| && o.calls[i] == c;
      assert v[i] in v;
      SplitLastJoin(rootName, v[i].name);
      SplitLastJoin(targetName, v[i].name);
    }
  }

  /**
   * The first loop of `iter_dirs`: reads the stream entry by entry and
   * records the callback invocations; the outcome is the one `EntryPass`
   * describes.
   */
  method IterDirsFirstPass(rootName: string, targetName: string, listing: seq<Entry>) returns (o: Outcome)
    ensures o == EntryPass(rootName, targetName, listing)
  {
    var calls: seq<Call> := [];
    var pos := 0;
    while pos < |listing|
      invariant 0 <= pos <= |listing|
      invariant After(calls, EntryPass(rootName, targetName, listing[pos..])) ==
                EntryPass(rootName, targetName, listing)
    {
      var d := listing[pos];
      ghost var rest := EntryPass(rootName, targetName, listing[pos + 1..]);
      assert listing[pos..][1..] == listing[pos + 1..];
      pos := pos + 1;
      if IsDotEntry(d.name) {
        continue;
      }
      var rootDName := Join(rootName, d.name);
      var targetDName := Join(targetName, d.name);
      if !d.statOk {
        return Aborted(calls, d.name);
      }
      var call := Call(d.name, d.isDir, rootDName, targetDName);
      AfterAppend(calls, call, rest);
      calls := calls + [call];
    }
    assert listing[pos..] == [];
    return Finished(calls);
  }
}
