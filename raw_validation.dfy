/**
 * Raw batch-file validation (`Raw_Train_Data_Validation` and
 * `Raw_Pred_Data_Validation`, which differ only in the folders they use):
 * the file-name check that copies each raw file to the good or the bad
 * folder, the column-count check and the missing-values check that move
 * failing files from the good to the bad folder.
 *
 * The file-name regex is a parameter: only whether it matches is used.
 */
module RawValidation {
  import opened Wrappers
  import opened Text
  import opened Storage
  import opened BlobStorage

  /** The folders of one variant, training or prediction. */
  datatype Layout = Layout(rawDir: string, goodDir: string, badDir: string)

  /** What stops a validation run. */
  datatype Fault =
    | StorageFault(cause: Storage.Fault)
    | PartMissing(filename: string, index: nat)   // `splitAtDot[index]`: IndexError

  // ---------------------------------------------------------------------
  // File names
  // ---------------------------------------------------------------------

  /** The regex `.csv` matches at `k`: any character but a newline, then "csv". */
  predicate CsvMatchAt(s: string, k: nat) {
    k + 4 <= |s| && s[k] != '\n' && s[k + 1..k + 4] == "csv"
  }

  /** The first match of `.csv` at or after `from`, or `|s|` when there is none. */
  function FirstCsvMatch(s: string, from: nat): (k: nat)
    requires from <= |s|
    ensures from <= k <= |s|
    ensures forall j :: from <= j < k ==> !CsvMatchAt(s, j)
    ensures k < |s| ==> CsvMatchAt(s, k)
    decreases |s| - from
  {
    if from == |s| then from
    else if CsvMatchAt(s, from) then from
    else FirstCsvMatch(s, from + 1)
  }

  /** `re.split(".csv", name)[0]`: the text before the first match, or the whole name. */
  function BeforeCsv(name: string): (head: string)
    ensures StartsWith(name, head)
    ensures forall j :: 0 <= j < |head| ==> !CsvMatchAt(name, j)
    ensures |head| < |name| ==> CsvMatchAt(name, |head|)
  {
    name[..FirstCsvMatch(name, 0)]
  }

  /** A name with no `c` before its `.csv` extension splits at the extension. */
  lemma BeforeCsvOfStem(stem: string)
    requires 'c' !in stem
    ensures BeforeCsv(stem + ".csv") == stem
  {
    var s := stem + ".csv";
    assert CsvMatchAt(s, |stem|);
    forall j | 0 <= j < |stem| ensures !CsvMatchAt(s, j) {
      if j + 1 < |stem| {
        assert s[j + 1] == stem[j + 1];
      }
    }
    var k := FirstCsvMatch(s, 0);
    assert k == |stem|;
  }

  /** `re.split("_", re.split(".csv", name)[0])`. */
  function NameParts(name: string): (parts: seq<string>)
    ensures |parts| >= 1
  {
    Split(BeforeCsv(name), '_')
  }

  /** `f.split("/")[1]`: the second segment of a listed path. */
  function SecondSegment(path: string): (segment: string)
    requires '/' in path
    ensures '/' !in segment
  {
    SplitSeveral(path, '/');
    SplitJoin(path, '/');
    Split(path, '/')[1]
  }

  /**
   * The second segment is the listed file's name when the raw folder is a
   * single path segment and the file sits directly in it; then
   * `rawDir + "/" + name` is the listed path again.
   */
  lemma SecondSegmentOfListed(rawDir: string, name: string)
    requires '/' !in rawDir && '/' !in name
    ensures '/' in rawDir + "/" + name
    ensures SecondSegment(rawDir + "/" + name) == name
  {
    var path := rawDir + "/" + name;
    assert path[|rawDir|] == '/';
    assert path == rawDir + ['/'] + name;
    SplitAtFirst(rawDir, '/', name);
    SplitNoSeparator(name, '/');
  }

  /**
   * Where the file-name check sends `filename`: the bad folder when the regex
   * fails or a stamp has the wrong length, the good folder when all three
   * checks pass. A matching name with too few `_` parts raises.
   */
  function NameRoute(layout: Layout, filename: string, regex: string -> bool, dateLength: nat, timeLength: nat)
    : Result<string, Fault>
  {
    if !regex(filename) then Ok(layout.badDir + "/" + filename)
    else
      var parts := NameParts(filename);
      if |parts| < 2 then Fail(PartMissing(filename, 1))
      else if |parts[1]| != dateLength then Ok(layout.badDir + "/" + filename)
      else if |parts| < 3 then Fail(PartMissing(filename, 2))
      else if |parts[2]| != timeLength then Ok(layout.badDir + "/" + filename)
      else Ok(layout.goodDir + "/" + filename)
  }

  /** The three checks of the name: the regex, then the date stamp's and the time stamp's lengths. */
  predicate NamePasses(filename: string, regex: string -> bool, dateLength: nat, timeLength: nat) {
    var parts := NameParts(filename);
    regex(filename) && |parts| >= 3 && |parts[1]| == dateLength && |parts[2]| == timeLength
  }

  /**
   * Each file goes to exactly one folder: the good one exactly when all three
   * checks pass, the bad one otherwise. The run raises only for a name the
   * regex accepts whose parts run out before a length check.
   */
  lemma NameRouteSpec(layout: Layout, filename: string, regex: string -> bool, dateLength: nat, timeLength: nat)
    ensures var route := NameRoute(layout, filename, regex, dateLength, timeLength);
      var parts := NameParts(filename);
      && (route.Fail? <==> regex(filename) && (|parts| < 2 || (|parts[1]| == dateLength && |parts| < 3)))
      && (route.Ok? ==> route.value == layout.goodDir + "/" + filename || route.value == layout.badDir + "/" + filename)
      && (route.Ok? && layout.goodDir != layout.badDir ==>
           (route.value == layout.goodDir + "/" + filename <==> NamePasses(filename, regex, dateLength, timeLength)))
  {
    if layout.goodDir != layout.badDir {
      DirsDiffer(layout.goodDir, layout.badDir, filename);
    }
  }

  /** Paths into two differently named folders differ. */
  lemma DirsDiffer(a: string, b: string, name: string)
    requires a != b
    ensures a + "/" + name != b + "/" + name
  {
    var pa, pb := a + "/" + name, b + "/" + name;
    if |a| == |b| {
      assert a == pa[..|a|] && b == pb[..|b|];
    } else {
      assert |pa| != |pb|;
    }
  }

  // ---------------------------------------------------------------------
  // validate_raw_file_name
  // ---------------------------------------------------------------------

  /**
   * The data container after the name check has copied the files named
   * `bases` in order, and whether it raised: it stops at the first name that
   * raises or whose raw file is missing.
   */
  function CopyRouted(data: map<string, Blob>, raw: map<string, Blob>, bases: seq<string>, layout: Layout,
                      regex: string -> bool, dateLength: nat, timeLength: nat): (map<string, Blob>, Result<(), Fault>)
    decreases |bases|
  {
    if |bases| == 0 then (data, Ok(()))
    else
      var before := CopyRouted(data, raw, bases[..|bases| - 1], layout, regex, dateLength, timeLength);
      var base := bases[|bases| - 1];
      var rawPath := layout.rawDir + "/" + base;
      if before.1.Fail? then before
      else match NameRoute(layout, base, regex, dateLength, timeLength)
        case Fail(e) => (before.0, Fail(e))
        case Ok(dest) =>
          if rawPath !in raw then (before.0, Fail(StorageFault(NotFound(rawPath))))
          else (before.0[dest := raw[rawPath]], Ok(()))
  }

  /** Every name in `bases` routes without raising, and its raw file is there. */
  ghost predicate AllCopyable(raw: map<string, Blob>, bases: seq<string>, layout: Layout,
                              regex: string -> bool, dateLength: nat, timeLength: nat)
  {
    forall b :: b in bases ==>
      '/' !in b && NameRoute(layout, b, regex, dateLength, timeLength).Ok? && layout.rawDir + "/" + b in raw
  }

  /** Each name's destination holds its raw content. */
  ghost predicate Delivered(after: map<string, Blob>, raw: map<string, Blob>, bases: seq<string>, layout: Layout,
                            regex: string -> bool, dateLength: nat, timeLength: nat)
    requires AllCopyable(raw, bases, layout, regex, dateLength, timeLength)
  {
    forall b :: b in bases ==>
      NameRoute(layout, b, regex, dateLength, timeLength).value in after
      && after[NameRoute(layout, b, regex, dateLength, timeLength).value] == raw[layout.rawDir + "/" + b]
  }

  /** Every blob that is no name's destination is as it was. */
  ghost predicate Untouched(after: map<string, Blob>, data: map<string, Blob>, bases: seq<string>, layout: Layout,
                            regex: string -> bool, dateLength: nat, timeLength: nat)
  {
    forall n :: (n in after || n in data) && !IsDestination(n, bases, layout, regex, dateLength, timeLength) ==>
      n in after && n in data && after[n] == data[n]
  }

  ghost predicate IsDestination(n: string, bases: seq<string>, layout: Layout,
                                regex: string -> bool, dateLength: nat, timeLength: nat)
  {
    exists b :: b in bases && NameRoute(layout, b, regex, dateLength, timeLength) == Ok(n)
  }

  /**
   * When no name raises and every raw file is there, each file's routed
   * destination holds its raw content, and every other blob is untouched.
   */
  lemma {:induction false} CopyRoutedSpec(data: map<string, Blob>, raw: map<string, Blob>, bases: seq<string>, layout: Layout,
                                          regex: string -> bool, dateLength: nat, timeLength: nat)
    requires AllCopyable(raw, bases, layout, regex, dateLength, timeLength)
    ensures CopyRouted(data, raw, bases, layout, regex, dateLength, timeLength).1.Ok?
    ensures Delivered(CopyRouted(data, raw, bases, layout, regex, dateLength, timeLength).0, raw, bases, layout, regex, dateLength, timeLength)
    ensures Untouched(CopyRouted(data, raw, bases, layout, regex, dateLength, timeLength).0, data, bases, layout, regex, dateLength, timeLength)
    decreases |bases|
  {
    if |bases| > 0 {
      var init := bases[..|bases| - 1];
      var last := bases[|bases| - 1];
      assert forall b :: b in bases <==> b in init || b == last;
      CopyRoutedSpec(data, raw, init, layout, regex, dateLength, timeLength);
      var prev := CopyRouted(data, raw, init, layout, regex, dateLength, timeLength).0;
      var dest := NameRoute(layout, last, regex, dateLength, timeLength).value;
      var rawPath := layout.rawDir + "/" + last;
      var after := prev[dest := raw[rawPath]];
      assert CopyRouted(data, raw, bases, layout, regex, dateLength, timeLength) == (after, Ok(()));
      forall b | b in bases
        ensures NameRoute(layout, b, regex, dateLength, timeLength).value in after
        ensures after[NameRoute(layout, b, regex, dateLength, timeLength).value] == raw[layout.rawDir + "/" + b]
      {
        var d := NameRoute(layout, b, regex, dateLength, timeLength).value;
        if b != last && d != dest {
          assert b in init;
        }
        if d == dest && b != last {
          RouteDeterminesRaw(layout, b, last, regex, dateLength, timeLength);
        }
      }
      forall n | (n in after || n in data) && !IsDestination(n, bases, layout, regex, dateLength, timeLength)
        ensures n in after && n in data && after[n] == data[n]
      {
        assert NameRoute(layout, last, regex, dateLength, timeLength) == Ok(dest);
        assert n != dest;
        assert !IsDestination(n, init, layout, regex, dateLength, timeLength);
      }
    }
  }

  /** Two names without `/` routed to the same destination are the same name. */
  lemma RouteDeterminesRaw(layout: Layout, a: string, b: string, regex: string -> bool, dateLength: nat, timeLength: nat)
    requires '/' !in a && '/' !in b
    requires NameRoute(layout, a, regex, dateLength, timeLength).Ok?
    requires NameRoute(layout, a, regex, dateLength, timeLength) == NameRoute(layout, b, regex, dateLength, timeLength)
    ensures a == b
  {
    var d := NameRoute(layout, a, regex, dateLength, timeLength).value;
    NameRouteSpec(layout, a, regex, dateLength, timeLength);
    NameRouteSpec(layout, b, regex, dateLength, timeLength);
    var da := if d == layout.goodDir + "/" + a then layout.goodDir else layout.badDir;
    var db := if d == layout.goodDir + "/" + b then layout.goodDir else layout.badDir;
    assert d == da + ['/'] + a && d == db + ['/'] + b;
    LastSegmentOf(da, '/', a);
    LastSegmentOf(db, '/', b);
  }

  /**
   * `validate_raw_file_name`: list the raw folder, take each path's second
   * segment as the file name, and copy `rawDir/name` to `goodDir/name` or
   * `badDir/name` in the data container.
   */
  method ValidateRawFileName(raw: Container, data: Container, layout: Layout, regex: string -> bool,
                             dateLength: nat, timeLength: nat)
    returns (listed: seq<string>, r: Result<(), Fault>)
    requires raw != data
    modifies data
    ensures Distinct(listed) && forall n :: n in listed <==> n in raw.InFolder(layout.rawDir)
    ensures forall n :: n in listed ==> '/' in n
    ensures var after := CopyRouted(old(data.blobs), raw.blobs, Bases(listed), layout, regex, dateLength, timeLength);
      data.blobs == after.0 && r == after.1
  {
    listed := raw.GetFilesFromFolder(layout.rawDir);
    forall n | n in listed ensures '/' in n {
      assert StartsWith(n, layout.rawDir + "/");
      assert n[|layout.rawDir|] == '/';
    }
    var bases := Bases(listed);
    ghost var start := data.blobs;
    for k := 0 to |bases|
      invariant data.blobs == CopyRouted(start, raw.blobs, bases[..k], layout, regex, dateLength, timeLength).0
      invariant CopyRouted(start, raw.blobs, bases[..k], layout, regex, dateLength, timeLength).1.Ok?
    {
      var base := bases[k];
      assert bases[..k + 1][..k] == bases[..k];
      var route := NameRoute(layout, base, regex, dateLength, timeLength);
      if route.Fail? {
        r := Fail(route.error);
        PrefixStops(start, raw.blobs, bases, k + 1, layout, regex, dateLength, timeLength);
        return;
      }
      var copied := CopyData(raw, layout.rawDir + "/" + base, data, route.value);
      if copied.Fail? {
        r := Fail(StorageFault(copied.error));
        PrefixStops(start, raw.blobs, bases, k + 1, layout, regex, dateLength, timeLength);
        return;
      }
    }
    assert bases[..|bases|] == bases;
    r := Ok(());
  }

  /**
   * When the raw folder is flat and no name raises, the check never fails
   * and every raw file's content lands in the folder its name routes to:
   * the good folder exactly when the name passes all three checks.
   */
  lemma RawCheckSpec(data: map<string, Blob>, raw: map<string, Blob>, listed: seq<string>, names: seq<string>, layout: Layout,
                     regex: string -> bool, dateLength: nat, timeLength: nat)
    requires '/' !in layout.rawDir && |names| == |listed|
    requires forall k :: 0 <= k < |listed| ==>
      && listed[k] == layout.rawDir + "/" + names[k] && '/' !in names[k] && listed[k] in raw
      && NameRoute(layout, names[k], regex, dateLength, timeLength).Ok?
    ensures forall n :: n in listed ==> '/' in n
    ensures CopyRouted(data, raw, Bases(listed), layout, regex, dateLength, timeLength).1.Ok?
    ensures forall k :: 0 <= k < |listed| ==>
      var dest := NameRoute(layout, names[k], regex, dateLength, timeLength).value;
      var after := CopyRouted(data, raw, Bases(listed), layout, regex, dateLength, timeLength).0;
      && dest in after && after[dest] == raw[listed[k]]
      && (dest == layout.goodDir + "/" + names[k] || dest == layout.badDir + "/" + names[k])
      && (layout.goodDir != layout.badDir ==>
           (dest == layout.goodDir + "/" + names[k] <==> NamePasses(names[k], regex, dateLength, timeLength)))
  {
    forall k | 0 <= k < |listed| ensures '/' in listed[k] && SecondSegment(listed[k]) == names[k] {
      SecondSegmentOfListed(layout.rawDir, names[k]);
    }
    var bases := Bases(listed);
    assert bases == names;
    CopyRoutedSpec(data, raw, bases, layout, regex, dateLength, timeLength);
    var after := CopyRouted(data, raw, bases, layout, regex, dateLength, timeLength).0;
    forall k | 0 <= k < |listed|
      ensures var dest := NameRoute(layout, names[k], regex, dateLength, timeLength).value;
        && dest in after && after[dest] == raw[listed[k]]
        && (dest == layout.goodDir + "/" + names[k] || dest == layout.badDir + "/" + names[k])
        && (layout.goodDir != layout.badDir ==>
             (dest == layout.goodDir + "/" + names[k] <==> NamePasses(names[k], regex, dateLength, timeLength)))
    {
      assert names[k] in bases;
      NameRouteSpec(layout, names[k], regex, dateLength, timeLength);
    }
  }

  /** The second segment of every listed path. */
  function Bases(listed: seq<string>): (bases: seq<string>)
    requires forall n :: n in listed ==> '/' in n
    ensures |bases| == |listed|
    ensures forall k :: 0 <= k < |listed| ==> bases[k] == SecondSegment(listed[k])
  {
    seq(|listed|, k requires 0 <= k < |listed| => SecondSegment(listed[k]))
  }

  /** Once a prefix of the names has raised, the rest changes nothing. */
  lemma {:induction false} PrefixStops(data: map<string, Blob>, raw: map<string, Blob>, bases: seq<string>, k: nat, layout: Layout,
                                       regex: string -> bool, dateLength: nat, timeLength: nat)
    requires k <= |bases|
    requires CopyRouted(data, raw, bases[..k], layout, regex, dateLength, timeLength).1.Fail?
    ensures CopyRouted(data, raw, bases, layout, regex, dateLength, timeLength)
         == CopyRouted(data, raw, bases[..k], layout, regex, dateLength, timeLength)
    decreases |bases| - k
  {
    if k < |bases| {
      var longer := bases[..k + 1];
      assert longer[..k] == bases[..k];
      PrefixStops(data, raw, bases, k + 1, layout, regex, dateLength, timeLength);
    } else {
      assert bases[..k] == bases;
    }
  }

  // ---------------------------------------------------------------------
  // validate_col_length and validate_missing_values_in_col
  // ---------------------------------------------------------------------

  /** What a check does with one listed file. */
  datatype Action =
    | Keep                                   // leave the blob where it is
    | MoveTo(dest: string)                   // `move_data` to `dest`
    | Upload(dest: string, content: Blob)    // `upload_df_as_csv` of the frame to `dest`

  /** The container, the local directory and whether the run raised, after a check. */
  datatype Sweep = Sweep(blobs: map<string, Blob>, local: map<string, Blob>, outcome: Result<(), Fault>)

  /**
   * Apply the actions to the listed files in order, stopping at the first
   * move whose source is gone. An upload writes the frame to a local file
   * named after the file's last segment and removes that file afterwards.
   */
  function Run(blobs: map<string, Blob>, local: map<string, Blob>, entries: seq<FolderEntry>, actions: seq<Action>): (s: Sweep)
    requires |entries| == |actions|
    decreases |entries|
  {
    if |entries| == 0 then Sweep(blobs, local, Ok(()))
    else
      var n := |entries| - 1;
      Step(Run(blobs, local, entries[..n], actions[..n]), entries[n], actions[n])
  }

  /** One file's action, unless an earlier file already raised. */
  function Step(before: Sweep, e: FolderEntry, a: Action): Sweep {
    if before.outcome.Fail? then before
    else match a
      case Keep => before
      case MoveTo(dest) =>
        if e.1 !in before.blobs then Sweep(before.blobs, before.local, Fail(StorageFault(NotFound(e.1))))
        else Sweep(Moved(before.blobs, e.1, dest), before.local, Ok(()))
      case Upload(dest, content) =>
        Sweep(before.blobs[dest := content], before.local - {e.2}, Ok(()))
  }

  /** The run over one more file is one more step. */
  lemma RunExtend(blobs: map<string, Blob>, local: map<string, Blob>, entries: seq<FolderEntry>, actions: seq<Action>, k: nat)
    requires |entries| == |actions| && k < |entries|
    ensures Run(blobs, local, entries[..k + 1], actions[..k + 1])
         == Step(Run(blobs, local, entries[..k], actions[..k]), entries[k], actions[k])
  {
    assert entries[..k + 1][..k] == entries[..k] && actions[..k + 1][..k] == actions[..k];
  }

  /** The blob name an action writes, if any. */
  function Written(a: Action): Option<string> {
    match a
    case Keep => None
    case MoveTo(dest) => Some(dest)
    case Upload(dest, _) => Some(dest)
  }

  /**
   * The conditions under which the checks do what their log messages say:
   * the listed paths are distinct and present, each written name belongs
   * to one file only, a move never lands on a listed path, and an upload
   * lands on no listed path but possibly its own file's.
   */
  ghost predicate Separate(blobs: map<string, Blob>, entries: seq<FolderEntry>, actions: seq<Action>)
    requires |entries| == |actions|
  {
    && Distinct(EntryPaths(entries))
    && (forall i :: 0 <= i < |entries| ==> entries[i].1 in blobs)
    && (forall i, j :: 0 <= i < j < |entries| && Written(actions[i]).Some? && Written(actions[j]).Some? ==>
          Written(actions[i]).value != Written(actions[j]).value)
    && (forall i, j :: 0 <= i < |entries| && 0 <= j < |entries| && actions[j].MoveTo? ==> entries[i].1 != actions[j].dest)
    && (forall i, j :: 0 <= i < |entries| && 0 <= j < |entries| && i != j && actions[j].Upload? ==>
          entries[i].1 != actions[j].dest)
  }

  /** What every listed file ends as after a run. */
  ghost predicate Effects(before: map<string, Blob>, after: map<string, Blob>, entries: seq<FolderEntry>, actions: seq<Action>)
    requires |entries| == |actions|
    requires forall i :: 0 <= i < |entries| ==> entries[i].1 in before
  {
    forall i :: 0 <= i < |entries| ==> StepEffect(before, after, entries[i], actions[i])
  }

  /** A blob no action touches, and no listed file, is as it was. */
  ghost predicate Unwritten(n: string, entries: seq<FolderEntry>, actions: seq<Action>)
    requires |entries| == |actions|
  {
    forall i :: 0 <= i < |entries| ==> n != entries[i].1 && Written(actions[i]) != Some(n)
  }

  /** The local files an upload passed through, which the run removes. */
  function Uploaded(entries: seq<FolderEntry>, actions: seq<Action>): set<string>
    requires |entries| == |actions|
  {
    set i | 0 <= i < |entries| && actions[i].Upload? :: entries[i].2
  }

  /**
   * Under `Separate`, a run never raises, every file ends as its action
   * says, blobs nobody touches are unchanged, and the local directory loses
   * exactly the uploaded files' local copies.
   */
  lemma {:induction false} RunSpec(blobs: map<string, Blob>, local: map<string, Blob>, entries: seq<FolderEntry>, actions: seq<Action>)
    requires |entries| == |actions|
    requires Separate(blobs, entries, actions)
    ensures Run(blobs, local, entries, actions).outcome.Ok?
    ensures Effects(blobs, Run(blobs, local, entries, actions).blobs, entries, actions)
    ensures forall x :: Unwritten(x, entries, actions) ==>
      (x in Run(blobs, local, entries, actions).blobs <==> x in blobs)
      && (x in blobs ==> Run(blobs, local, entries, actions).blobs[x] == blobs[x])
    decreases |entries|
  {
    if |entries| > 0 {
      var n := |entries| - 1;
      var es, acts := entries[..n], actions[..n];
      SeparatePrefix(blobs, entries, actions);
      RunSpec(blobs, local, es, acts);
      var before := Run(blobs, local, es, acts);
      var e := entries[n];
      assert Run(blobs, local, entries, actions) == Step(before, e, actions[n]);
      LastUnwritten(blobs, entries, actions);
      assert e.1 in before.blobs;
      var mid := before.blobs;
      var after := match actions[n]
        case Keep => mid
        case MoveTo(dest) => Moved(mid, e.1, dest)
        case Upload(dest, content) => mid[dest := content];
      assert Run(blobs, local, entries, actions).blobs == after;
      StepSpec(blobs, mid, after, entries, actions);
    }
  }

  /** A run that does not raise removes exactly the uploaded files' local copies. */
  lemma {:induction false} RunLocal(blobs: map<string, Blob>, local: map<string, Blob>, entries: seq<FolderEntry>, actions: seq<Action>)
    requires |entries| == |actions|
    requires Run(blobs, local, entries, actions).outcome.Ok?
    ensures Run(blobs, local, entries, actions).local == local - Uploaded(entries, actions)
    decreases |entries|
  {
    if |entries| > 0 {
      var n := |entries| - 1;
      var es, acts := entries[..n], actions[..n];
      RunLocal(blobs, local, es, acts);
      var added := if actions[n].Upload? then {entries[n].2} else {};
      assert Uploaded(entries, actions) == Uploaded(es, acts) + added by {
        forall x ensures x in Uploaded(entries, actions) <==> x in Uploaded(es, acts) + added {
          if x in Uploaded(es, acts) {
            var i :| 0 <= i < n && acts[i].Upload? && es[i].2 == x;
            assert entries[i] == es[i] && actions[i] == acts[i];
          }
        }
      }
    }
  }

  /** Dropping the last file keeps the files separate. */
  lemma SeparatePrefix(blobs: map<string, Blob>, entries: seq<FolderEntry>, actions: seq<Action>)
    requires |entries| == |actions| > 0
    requires Separate(blobs, entries, actions)
    ensures Separate(blobs, entries[..|entries| - 1], actions[..|entries| - 1])
  {
    var n := |entries| - 1;
    assert forall i :: 0 <= i < n ==> EntryPaths(entries[..n])[i] == EntryPaths(entries)[i];
  }

  /** The last file is neither an earlier file nor written by an earlier action. */
  lemma LastUnwritten(blobs: map<string, Blob>, entries: seq<FolderEntry>, actions: seq<Action>)
    requires |entries| == |actions| > 0
    requires Separate(blobs, entries, actions)
    ensures Unwritten(entries[|entries| - 1].1, entries[..|entries| - 1], actions[..|entries| - 1])
  {
    var n := |entries| - 1;
    forall i | 0 <= i < n ensures entries[n].1 != entries[..n][i].1 && Written(actions[..n][i]) != Some(entries[n].1) {
      assert EntryPaths(entries)[i] != EntryPaths(entries)[n];
    }
  }

  /** The last step of a run keeps what the earlier steps established. */
  lemma StepSpec(blobs: map<string, Blob>, mid: map<string, Blob>, after: map<string, Blob>,
                 entries: seq<FolderEntry>, actions: seq<Action>)
    requires |entries| == |actions| > 0
    requires Separate(blobs, entries, actions)
    requires var n := |entries| - 1;
      && Effects(blobs, mid, entries[..n], actions[..n])
      && (forall x :: Unwritten(x, entries[..n], actions[..n]) ==> (x in mid <==> x in blobs) && (x in blobs ==> mid[x] == blobs[x]))
      && after == match actions[n]
           case Keep => mid
           case MoveTo(dest) => Moved(mid, entries[n].1, dest)
           case Upload(dest, content) => mid[dest := content]
    ensures Effects(blobs, after, entries, actions)
    ensures forall x :: Unwritten(x, entries, actions) ==> (x in after <==> x in blobs) && (x in blobs ==> after[x] == blobs[x])
  {
    var n := |entries| - 1;
    LastUnwritten(blobs, entries, actions);
    StepEffects(blobs, mid, after, entries, actions);
    forall x | Unwritten(x, entries, actions)
      ensures (x in after <==> x in blobs) && (x in blobs ==> after[x] == blobs[x])
    {
      UnwrittenPrefix(x, entries, actions);
      StepOther(mid, after, entries[n], actions[n], x);
    }
  }

  /** A name no file of the run touches is untouched by all but the last file. */
  lemma UnwrittenPrefix(x: string, entries: seq<FolderEntry>, actions: seq<Action>)
    requires |entries| == |actions| > 0
    requires Unwritten(x, entries, actions)
    ensures var n := |entries| - 1;
      && Unwritten(x, entries[..n], actions[..n])
      && x != entries[n].1 && Written(actions[n]) != Some(x)
  {
    var n := |entries| - 1;
    forall i | 0 <= i < n ensures x != entries[..n][i].1 && Written(actions[..n][i]) != Some(x) {
      assert entries[..n][i] == entries[i] && actions[..n][i] == actions[i];
    }
  }

  /** Every file, the last one included, ends as its action says. */
  lemma StepEffects(blobs: map<string, Blob>, mid: map<string, Blob>, after: map<string, Blob>,
                    entries: seq<FolderEntry>, actions: seq<Action>)
    requires |entries| == |actions| > 0
    requires Separate(blobs, entries, actions)
    requires var n := |entries| - 1;
      && Effects(blobs, mid, entries[..n], actions[..n])
      && Unwritten(entries[n].1, entries[..n], actions[..n])
      && entries[n].1 in mid && mid[entries[n].1] == blobs[entries[n].1]
      && after == match actions[n]
           case Keep => mid
           case MoveTo(dest) => Moved(mid, entries[n].1, dest)
           case Upload(dest, content) => mid[dest := content]
    ensures Effects(blobs, after, entries, actions)
  {
    var n := |entries| - 1;
    var e := entries[n];
    forall i | 0 <= i <= n
      ensures StepEffect(blobs, after, entries[i], actions[i])
    {
      if i < n {
        assert entries[..n][i] == entries[i] && actions[..n][i] == actions[i];
        assert StepEffect(blobs, mid, entries[i], actions[i]);
        assert EntryPaths(entries)[i] != EntryPaths(entries)[n];
        StepOther(mid, after, e, actions[n], entries[i].1);
        if Written(actions[i]).Some? {
          StepOther(mid, after, e, actions[n], Written(actions[i]).value);
        }
      } else {
        StepLast(blobs, mid, after, e, actions[n]);
      }
    }
  }

  /** What one listed file ends as, the body of `Effects`. */
  ghost predicate StepEffect(before: map<string, Blob>, after: map<string, Blob>, e: FolderEntry, a: Action)
    requires e.1 in before
  {
    match a
    case Keep => e.1 in after && after[e.1] == before[e.1]
    case MoveTo(dest) => e.1 !in after && dest in after && after[dest] == before[e.1]
    case Upload(dest, content) => dest in after && after[dest] == content
  }

  /** The last file's own action takes effect. */
  lemma StepLast(blobs: map<string, Blob>, mid: map<string, Blob>, after: map<string, Blob>, e: FolderEntry, a: Action)
    requires e.1 in blobs && e.1 in mid && mid[e.1] == blobs[e.1]
    requires a.MoveTo? ==> a.dest != e.1
    requires after == match a
      case Keep => mid
      case MoveTo(dest) => Moved(mid, e.1, dest)
      case Upload(dest, content) => mid[dest := content]
    ensures StepEffect(blobs, after, e, a)
  {
  }

  /** A name the last step neither reads nor writes is as the earlier steps left it. */
  lemma StepOther(mid: map<string, Blob>, after: map<string, Blob>, e: FolderEntry, a: Action, x: string)
    requires e.1 in mid
    requires x != e.1 && Written(a) != Some(x)
    requires after == match a
      case Keep => mid
      case MoveTo(dest) => Moved(mid, e.1, dest)
      case Upload(dest, content) => mid[dest := content]
    ensures (x in after <==> x in mid) && (x in mid ==> after[x] == mid[x])
  {
  }

  /** Once a prefix of the files has raised, the rest of a run changes nothing. */
  lemma {:induction false} RunStops(blobs: map<string, Blob>, local: map<string, Blob>, entries: seq<FolderEntry>, actions: seq<Action>, k: nat)
    requires |entries| == |actions| && k <= |entries|
    requires Run(blobs, local, entries[..k], actions[..k]).outcome.Fail?
    ensures Run(blobs, local, entries, actions) == Run(blobs, local, entries[..k], actions[..k])
    decreases |entries| - k
  {
    if k < |entries| {
      assert entries[..k + 1][..k] == entries[..k];
      assert actions[..k + 1][..k] == actions[..k];
      RunStops(blobs, local, entries, actions, k + 1);
    } else {
      assert entries[..k] == entries && actions[..k] == actions;
    }
  }

  /** Paths into two different single-segment folders never meet. */
  lemma DirsApart(a: string, b: string, x: string, y: string)
    requires '/' !in a && '/' !in b && a != b
    ensures a + "/" + x != b + "/" + y
  {
    var pa, pb := a + "/" + x, b + "/" + y;
    if |a| < |b| {
      assert pa[|a|] == '/' && pb[|a|] == b[|a|];
    } else if |b| < |a| {
      assert pb[|b|] == '/' && pa[|b|] == a[|b|];
    } else {
      assert pa[..|a|] == a && pb[..|b|] == b;
    }
  }

  /** Two paths into one folder are equal only for equal names. */
  lemma SameDirApart(a: string, x: string, y: string)
    requires x != y
    ensures a + "/" + x != a + "/" + y
  {
    var px, py := a + "/" + x, a + "/" + y;
    if |x| == |y| {
      assert px[|a| + 1..] == x && py[|a| + 1..] == y;
    } else {
      assert |px| != |py|;
    }
  }

  /**
   * What `read_csv_from_folder` hands the checks: distinct stored tables
   * under `folder + "/"`, each with its last path segment.
   */
  ghost predicate Listing(blobs: map<string, Blob>, folder: string, entries: seq<FolderEntry>) {
    && Distinct(EntryPaths(entries))
    && forall k :: 0 <= k < |entries| ==>
         && entries[k].1 in blobs && blobs[entries[k].1] == Csv(entries[k].0)
         && StartsWith(entries[k].1, folder + "/")
         && entries[k].2 == LastSegment(entries[k].1, '/')
  }

  /** What `read_csv_from_folder` promises is a listing of the folder. */
  lemma ListingOfFolder(data: Container, folder: string, entries: seq<FolderEntry>)
    requires data.FolderEntries(folder, entries)
    ensures Listing(data.blobs, folder, entries)
  {
    forall k | 0 <= k < |entries| ensures StartsWith(entries[k].1, folder + "/") {
      assert entries[k].1 in EntryPaths(entries);
    }
  }

  /** No two listed files share a last segment, as happens in a flat folder. */
  ghost predicate DistinctNames(entries: seq<FolderEntry>) {
    forall i, j :: 0 <= i < j < |entries| ==> entries[i].2 != entries[j].2
  }

  /** Each folder is a single path segment and the good and bad folders differ. */
  predicate FoldersApart(layout: Layout) {
    '/' !in layout.goodDir && '/' !in layout.badDir && layout.goodDir != layout.badDir
  }

  /** A listed file is under neither the bad folder nor, with another file's name, the good folder. */
  lemma ListedNotWritten(entries: seq<FolderEntry>, blobs: map<string, Blob>, layout: Layout, i: nat, j: nat)
    requires Listing(blobs, layout.goodDir, entries) && DistinctNames(entries) && FoldersApart(layout)
    requires i < |entries| && j < |entries|
    ensures entries[i].1 != layout.badDir + "/" + entries[j].2
    ensures i != j ==> entries[i].1 != layout.goodDir + "/" + entries[j].2
  {
    var p := entries[i].1;
    var rest := p[|layout.goodDir| + 1..];
    assert p == layout.goodDir + "/" + rest;
    DirsApart(layout.goodDir, layout.badDir, rest, entries[j].2);
    if i != j && p == layout.goodDir + "/" + entries[j].2 {
      LastSegmentShape(entries[j].1, '/');
      assert p == layout.goodDir + ['/'] + entries[j].2;
      LastSegmentOf(layout.goodDir, '/', entries[j].2);
      assert false;
    }
  }

  /** `validate_col_length`'s test: a `.csv` path whose table has the wrong number of columns goes to the bad folder. */
  function ColumnAction(e: FolderEntry, layout: Layout, numberOfColumns: nat): Action {
    if EndsWith(e.1, ".csv") && Width(e.0) != numberOfColumns then MoveTo(layout.badDir + "/" + e.2) else Keep
  }

  function ColumnActions(entries: seq<FolderEntry>, layout: Layout, numberOfColumns: nat): (actions: seq<Action>)
    ensures |actions| == |entries|
    ensures forall k :: 0 <= k < |entries| ==> actions[k] == ColumnAction(entries[k], layout, numberOfColumns)
  {
    seq(|entries|, k requires 0 <= k < |entries| => ColumnAction(entries[k], layout, numberOfColumns))
  }

  /**
   * `validate_col_length`: read every table in the good folder, then move
   * each `.csv` whose column count is not `numberOfColumns` to the bad
   * folder under its last path segment.
   */
  method ValidateColLength(data: Container, layout: Layout, numberOfColumns: nat)
    returns (read: Result<seq<FolderEntry>, Storage.Fault>, r: Result<(), Fault>)
    modifies data
    ensures read.Fail? ==> r == Fail(StorageFault(read.error)) && data.blobs == old(data.blobs)
    ensures read.Ok? ==> Listing(old(data.blobs), layout.goodDir, read.value)
    ensures read.Ok? ==>
      var s := Run(old(data.blobs), map[], read.value, ColumnActions(read.value, layout, numberOfColumns));
      data.blobs == s.blobs && r == s.outcome
  {
    read := data.ReadCsvFromFolder(layout.goodDir);
    if read.Fail? {
      return read, Fail(StorageFault(read.error));
    }
    ListingOfFolder(data, layout.goodDir, read.value);
    r := MoveWrongWidth(data, read.value, layout, numberOfColumns);
  }

  /** The loop of `validate_col_length` over the tables read. */
  method MoveWrongWidth(data: Container, entries: seq<FolderEntry>, layout: Layout, numberOfColumns: nat) returns (r: Result<(), Fault>)
    modifies data
    ensures var s := Run(old(data.blobs), map[], entries, ColumnActions(entries, layout, numberOfColumns));
      data.blobs == s.blobs && r == s.outcome
  {
    ghost var actions := ColumnActions(entries, layout, numberOfColumns);
    ghost var start := data.blobs;
    for k := 0 to |entries|
      invariant data.blobs == Run(start, map[], entries[..k], actions[..k]).blobs
      invariant Run(start, map[], entries[..k], actions[..k]).outcome == Ok(())
    {
      var e := entries[k];
      RunExtend(start, map[], entries, actions, k);
      if EndsWith(e.1, ".csv") && Width(e.0) != numberOfColumns {
        var moved := MoveData(data, e.1, data, layout.badDir + "/" + e.2);
        if moved.Fail? {
          r := Fail(StorageFault(moved.error));
          RunStops(start, map[], entries, actions, k + 1);
          return;
        }
      }
    }
    assert entries[..|entries|] == entries && actions[..|entries|] == actions;
    r := Ok(());
  }

  /**
   * With distinct file names and separate folders, the column check never
   * raises: each `.csv` table of the wrong width ends in the bad folder
   * under its name and leaves the good folder; every other file stays put.
   */
  lemma ColumnCheckSpec(blobs: map<string, Blob>, entries: seq<FolderEntry>, layout: Layout, numberOfColumns: nat)
    requires Listing(blobs, layout.goodDir, entries) && DistinctNames(entries) && FoldersApart(layout)
    ensures Run(blobs, map[], entries, ColumnActions(entries, layout, numberOfColumns)).outcome.Ok?
    ensures forall k :: 0 <= k < |entries| ==>
      var after := Run(blobs, map[], entries, ColumnActions(entries, layout, numberOfColumns)).blobs;
      if EndsWith(entries[k].1, ".csv") && Width(entries[k].0) != numberOfColumns then
        && entries[k].1 !in after
        && layout.badDir + "/" + entries[k].2 in after
        && after[layout.badDir + "/" + entries[k].2] == Csv(entries[k].0)
      else
        entries[k].1 in after && after[entries[k].1] == Csv(entries[k].0)
  {
    var actions := ColumnActions(entries, layout, numberOfColumns);
    forall i, j | 0 <= i < |entries| && 0 <= j < |entries|
      ensures entries[i].1 != layout.badDir + "/" + entries[j].2
      ensures i != j ==> entries[i].1 != layout.goodDir + "/" + entries[j].2
    {
      ListedNotWritten(entries, blobs, layout, i, j);
    }
    forall i, j | 0 <= i < j < |entries| && Written(actions[i]).Some? && Written(actions[j]).Some?
      ensures Written(actions[i]).value != Written(actions[j]).value
    {
      SameDirApart(layout.badDir, entries[i].2, entries[j].2);
    }
    RunSpec(blobs, map[], entries, actions);
  }

  /** `(len(df[cols]) - df[cols].count()) == len(df[cols])` for some column: a column with no value at all. */
  predicate HasAllMissingColumn(f: Frame) {
    exists j :: 0 <= j < |f.columns| && AllMissing(f.columns[j])
  }

  /** The scan over `df`'s columns that stops at the first one without values. */
  method FindEmptyColumn(f: Frame) returns (found: bool)
    ensures found <==> HasAllMissingColumn(f)
  {
    var columns := f.columns;
    found := false;
    var j := 0;
    while j < |columns| && !found
      invariant 0 <= j <= |columns|
      invariant found ==> HasAllMissingColumn(f)
      invariant !found ==> forall c :: 0 <= c < j ==> !AllMissing(columns[c])
    {
      if AllMissing(columns[j]) {
        found := true;
      }
      j := j + 1;
    }
  }

  /**
   * `validate_missing_values_in_col`'s decision for a file whose last
   * segment ends in `.csv`: to the bad folder when a column is empty of
   * values, else written back to the good folder under that segment.
   */
  function MissingAction(e: FolderEntry, layout: Layout): Action {
    if !EndsWith(e.2, ".csv") then Keep
    else if HasAllMissingColumn(e.0) then MoveTo(layout.badDir + "/" + e.2)
    else Upload(layout.goodDir + "/" + e.2, Csv(e.0))
  }

  function MissingActions(entries: seq<FolderEntry>, layout: Layout): (actions: seq<Action>)
    ensures |actions| == |entries|
    ensures forall k :: 0 <= k < |entries| ==> actions[k] == MissingAction(entries[k], layout)
  {
    seq(|entries|, k requires 0 <= k < |entries| => MissingAction(entries[k], layout))
  }

  /**
   * `validate_missing_values_in_col`: read every table in the good folder;
   * for each whose last segment ends in `.csv`, scan the columns for one
   * without values and move the file to the bad folder at the first, or,
   * when there is none, write the table to a local file named after the
   * segment and upload it to the good folder, replacing what is there.
   */
  method ValidateMissingValuesInCol(data: Container, disk: LocalDisk, layout: Layout)
    returns (read: Result<seq<FolderEntry>, Storage.Fault>, r: Result<(), Fault>)
    modifies data, disk
    ensures read.Fail? ==> r == Fail(StorageFault(read.error)) && data.blobs == old(data.blobs) && disk.files == old(disk.files)
    ensures read.Ok? ==> Listing(old(data.blobs), layout.goodDir, read.value)
    ensures read.Ok? ==>
      var s := Run(old(data.blobs), old(disk.files), read.value, MissingActions(read.value, layout));
      data.blobs == s.blobs && disk.files == s.local && r == s.outcome
  {
    read := data.ReadCsvFromFolder(layout.goodDir);
    if read.Fail? {
      return read, Fail(StorageFault(read.error));
    }
    ListingOfFolder(data, layout.goodDir, read.value);
    r := SweepEmptyColumns(data, disk, read.value, layout);
  }

  /** The loop of `validate_missing_values_in_col` over the tables read. */
  method SweepEmptyColumns(data: Container, disk: LocalDisk, entries: seq<FolderEntry>, layout: Layout) returns (r: Result<(), Fault>)
    modifies data, disk
    ensures var s := Run(old(data.blobs), old(disk.files), entries, MissingActions(entries, layout));
      data.blobs == s.blobs && disk.files == s.local && r == s.outcome
  {
    ghost var actions := MissingActions(entries, layout);
    ghost var start, startLocal := data.blobs, disk.files;
    for k := 0 to |entries|
      invariant data.blobs == Run(start, startLocal, entries[..k], actions[..k]).blobs
      invariant disk.files == Run(start, startLocal, entries[..k], actions[..k]).local
      invariant Run(start, startLocal, entries[..k], actions[..k]).outcome == Ok(())
    {
      RunExtend(start, startLocal, entries, actions, k);
      var moved := CheckMissingOne(data, disk, entries[k], layout);
      if moved.Fail? {
        r := moved;
        RunStops(start, startLocal, entries, actions, k + 1);
        return;
      }
    }
    assert entries[..|entries|] == entries && actions[..|entries|] == actions;
    r := Ok(());
  }

  /** One table of `validate_missing_values_in_col`: its step of the run. */
  method CheckMissingOne(data: Container, disk: LocalDisk, e: FolderEntry, layout: Layout) returns (r: Result<(), Fault>)
    modifies data, disk
    ensures var s := Step(Sweep(old(data.blobs), old(disk.files), Ok(())), e, MissingAction(e, layout));
      data.blobs == s.blobs && disk.files == s.local && r == s.outcome
  {
    r := Ok(());
    if EndsWith(e.2, ".csv") {
      var found := FindEmptyColumn(e.0);
      if found {
        var moved := MoveData(data, e.1, data, layout.badDir + "/" + e.2);
        if moved.Fail? {
          r := Fail(StorageFault(moved.error));
        }
      } else {
        data.UploadDfAsCsv(disk, e.0, e.2, layout.goodDir + "/" + e.2);
      }
    }
  }

  /**
   * With distinct file names and separate folders, the missing-value check
   * never raises: a `.csv` table with a column empty of values ends in the
   * bad folder and leaves the good one, every other `.csv` table is in the
   * good folder under its name, other files stay put, and the local copies
   * written for the uploads are gone again.
   */
  lemma MissingCheckSpec(blobs: map<string, Blob>, local: map<string, Blob>, entries: seq<FolderEntry>, layout: Layout)
    requires Listing(blobs, layout.goodDir, entries) && DistinctNames(entries) && FoldersApart(layout)
    ensures Run(blobs, local, entries, MissingActions(entries, layout)).outcome.Ok?
    ensures forall k :: 0 <= k < |entries| ==>
      var after := Run(blobs, local, entries, MissingActions(entries, layout)).blobs;
      if !EndsWith(entries[k].2, ".csv") then
        entries[k].1 in after && after[entries[k].1] == Csv(entries[k].0)
      else if HasAllMissingColumn(entries[k].0) then
        && entries[k].1 !in after
        && layout.badDir + "/" + entries[k].2 in after
        && after[layout.badDir + "/" + entries[k].2] == Csv(entries[k].0)
      else
        layout.goodDir + "/" + entries[k].2 in after && after[layout.goodDir + "/" + entries[k].2] == Csv(entries[k].0)
    ensures Run(blobs, local, entries, MissingActions(entries, layout)).local
         == local - set k | 0 <= k < |entries| && EndsWith(entries[k].2, ".csv") && !HasAllMissingColumn(entries[k].0) :: entries[k].2
  {
    var actions := MissingActions(entries, layout);
    MissingSeparate(blobs, entries, layout);
    RunSpec(blobs, local, entries, actions);
    RunLocal(blobs, local, entries, actions);
    var after := Run(blobs, local, entries, actions).blobs;
    forall k | 0 <= k < |entries| ensures StepEffect(blobs, after, entries[k], actions[k]) && blobs[entries[k].1] == Csv(entries[k].0) {
    }
    MissingUploaded(entries, layout);
  }

  /** The missing-value check's actions keep the files separate. */
  lemma MissingSeparate(blobs: map<string, Blob>, entries: seq<FolderEntry>, layout: Layout)
    requires Listing(blobs, layout.goodDir, entries) && DistinctNames(entries) && FoldersApart(layout)
    ensures Separate(blobs, entries, MissingActions(entries, layout))
  {
    var actions := MissingActions(entries, layout);
    forall i, j | 0 <= i < |entries| && 0 <= j < |entries|
      ensures entries[i].1 != layout.badDir + "/" + entries[j].2
      ensures i != j ==> entries[i].1 != layout.goodDir + "/" + entries[j].2
    {
      ListedNotWritten(entries, blobs, layout, i, j);
    }
    MissingWrittenApart(entries, layout);
  }

  /** No two files' actions in the missing-value check write the same name. */
  lemma MissingWrittenApart(entries: seq<FolderEntry>, layout: Layout)
    requires DistinctNames(entries) && FoldersApart(layout)
    ensures var actions := MissingActions(entries, layout);
      forall i, j :: 0 <= i < j < |entries| && Written(actions[i]).Some? && Written(actions[j]).Some? ==>
        Written(actions[i]).value != Written(actions[j]).value
  {
    var actions := MissingActions(entries, layout);
    forall i, j | 0 <= i < j < |entries| && Written(actions[i]).Some? && Written(actions[j]).Some?
      ensures Written(actions[i]).value != Written(actions[j]).value
    {
      var x, y := entries[i].2, entries[j].2;
      SameDirApart(layout.badDir, x, y);
      SameDirApart(layout.goodDir, x, y);
      DirsApart(layout.goodDir, layout.badDir, x, y);
      DirsApart(layout.badDir, layout.goodDir, x, y);
    }
  }

  /** The missing-value check uploads exactly the `.csv` tables that have a value in every column. */
  lemma MissingUploaded(entries: seq<FolderEntry>, layout: Layout)
    ensures Uploaded(entries, MissingActions(entries, layout))
         == set k | 0 <= k < |entries| && EndsWith(entries[k].2, ".csv") && !HasAllMissingColumn(entries[k].0) :: entries[k].2
  {
  }
}
