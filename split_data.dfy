/**
 * `split_csv`: cut a CSV file into batch files of at most
 * `records_per_file` data rows each, every one led by the header row and
 * named after the clock reading taken when it was opened.
 *
 * The source file arrives as its rows; the clock is a function from the
 * index of an iteration to the `(date, time)` strings it read.
 */
module SplitData {
  import opened Wrappers
  import opened Text
  import RawValidation

  /** One CSV record, as `csv.reader` yields it. */
  type Row = seq<string>

  /** Why `split_csv` raises. */
  datatype SplitFault =
    | NonPositiveRecords   // `records_per_file <= 0`
    | NoHeader             // `next(reader)` on an empty source

  /** `"".join(s.split(sep))`: the stamp with its separators removed. */
  function StripSeparators(s: string, sep: char): (stamp: string)
    ensures sep !in stamp
  {
    SplitJoin(s, sep);
    StripSeparatorsSpec(Split(s, sep), sep);
    Join(Split(s, sep), "")
  }

  /** Joining pieces without a separator keeps only characters of the pieces. */
  lemma {:induction false} StripSeparatorsSpec(parts: seq<string>, sep: char)
    requires forall k :: 0 <= k < |parts| ==> sep !in parts[k]
    ensures sep !in Join(parts, "")
    decreases |parts|
  {
    if |parts| > 1 {
      StripSeparatorsSpec(parts[1..], sep);
      assert Join(parts, "") == parts[0] + Join(parts[1..], "");
    }
  }

  /** Separators split away leave the three fields of a `a-b-c` stamp side by side. */
  lemma StripThreeFields(a: string, b: string, c: string, sep: char)
    requires sep !in a && sep !in b && sep !in c
    ensures StripSeparators(a + [sep] + b + [sep] + c, sep) == a + b + c
  {
    SplitNoSeparator(c, sep);
    SplitAtFirst(b, sep, c);
    assert a + [sep] + b + [sep] + c == a + [sep] + (b + [sep] + c);
    SplitAtFirst(a, sep, b + [sep] + c);
    assert Split(a + [sep] + b + [sep] + c, sep) == [a, b, c];
    JoinThree(a, b, c);
  }

  /** `"".join([a, b, c])`. */
  lemma JoinThree(a: string, b: string, c: string)
    ensures Join([a, b, c], "") == a + b + c
  {
    assert [a, b, c][1..] == [b, c] && [b, c][1..] == [c];
    assert Join([b, c], "") == b + c;
  }

  /** `f"apsfailure_{datetimestamp}_{timestamp}.csv"` for a date `YYYY-MM-DD` and a time `HH:MM:SS`. */
  function FileName(date: string, time: string): string {
    "apsfailure_" + StripSeparators(date, '-') + "_" + StripSeparators(time, ':') + ".csv"
  }

  /** Every character is a decimal digit. */
  predicate Digits(s: string) {
    forall k :: 0 <= k < |s| ==> '0' <= s[k] <= '9'
  }

  /**
   * The batch file of a clock reading `YYYY-MM-DD`, `HH:MM:SS` is
   * `apsfailure_YYYYMMDD_HHMMSS.csv`, and the raw-file check reads it back
   * as the parts `apsfailure`, the 8-digit date and the 6-digit time, so a
   * batch file passes both length checks with lengths 8 and 6.
   */
  lemma FileNameOfClock(y: string, mo: string, d: string, h: string, mi: string, s: string)
    requires Digits(y) && Digits(mo) && Digits(d) && Digits(h) && Digits(mi) && Digits(s)
    requires |y| == 4 && |mo| == 2 && |d| == 2 && |h| == 2 && |mi| == 2 && |s| == 2
    ensures FileName(y + "-" + mo + "-" + d, h + ":" + mi + ":" + s)
         == "apsfailure_" + (y + mo + d) + "_" + (h + mi + s) + ".csv"
    ensures RawValidation.NameParts(FileName(y + "-" + mo + "-" + d, h + ":" + mi + ":" + s))
         == ["apsfailure", y + mo + d, h + mi + s]
    ensures |y + mo + d| == 8 && |h + mi + s| == 6
  {
    assert y + "-" + mo + "-" + d == y + ['-'] + mo + ['-'] + d;
    assert h + ":" + mi + ":" + s == h + [':'] + mi + [':'] + s;
    StripThreeFields(y, mo, d, '-');
    StripThreeFields(h, mi, s, ':');
    DigitsJoin(y, mo, d);
    DigitsJoin(h, mi, s);
    NamePartsOfBatchFile(y + mo + d, h + mi + s);
  }

  /** Three digit strings joined are digits. */
  lemma DigitsJoin(a: string, b: string, c: string)
    requires Digits(a) && Digits(b) && Digits(c)
    ensures Digits(a + b + c)
  {
  }

  /** The raw-file check splits a batch file name into `apsfailure`, its date digits and its time digits. */
  lemma NamePartsOfBatchFile(date: string, time: string)
    requires Digits(date) && Digits(time)
    ensures RawValidation.NameParts("apsfailure_" + date + "_" + time + ".csv") == ["apsfailure", date, time]
  {
    var stem := "apsfailure_" + date + "_" + time;
    assert "apsfailure_" + date + "_" + time + ".csv" == stem + ".csv";
    assert 'c' !in stem by {
      assert forall k :: 0 <= k < |date| ==> date[k] != 'c';
      assert forall k :: 0 <= k < |time| ==> time[k] != 'c';
    }
    RawValidation.BeforeCsvOfStem(stem);
    assert '_' !in date && '_' !in time by {
      assert forall k :: 0 <= k < |date| ==> date[k] != '_';
      assert forall k :: 0 <= k < |time| ==> time[k] != '_';
    }
    assert stem == "apsfailure" + ['_'] + (date + ['_'] + time);
    SplitAtFirst("apsfailure", '_', date + ['_'] + time);
    SplitAtFirst(date, '_', time);
    SplitNoSeparator(time, '_');
  }

  /** `os.path.join(folder, name)` for a relative `name`. */
  function PathJoin(folder: string, name: string): (path: string)
    ensures EndsWith(path, name)
  {
    if |folder| == 0 || folder[|folder| - 1] == '/' then folder + name else folder + "/" + name
  }

  /** The batch file the `k`-th pass of the outer loop opens. */
  function Target(folder: string, clock: nat -> (string, string), k: nat): string {
    PathJoin(folder, FileName(clock(k).0, clock(k).1))
  }

  /** The destination folder, as the map from file path to the rows written to it. */
  class Directory {
    var files: map<string, seq<Row>>

    constructor (initial: map<string, seq<Row>>)
      ensures files == initial
    {
      files := initial;
    }

    /** `open(path, "w")`: create the file, or empty it when it exists. */
    method Create(path: string)
      modifies this
      ensures files == old(files)[path := []]
    {
      files := files[path := []];
    }

    /** `writer.writerow(row)` on an open file. */
    method WriteRow(path: string, row: Row)
      requires path in files
      modifies this
      ensures files == old(files)[path := old(files)[path] + [row]]
    {
      files := files[path := files[path] + [row]];
    }

    /** `os.remove(path)` of a file that exists. */
    method Remove(path: string)
      requires path in files
      modifies this
      ensures files == old(files) - {path}
    {
      files := files - {path};
    }
  }

  /**
   * The folder after the outer loop has run from pass `k` on, with `rows`
   * the records the reader still holds: each pass writes the header and up
   * to `r` records; a pass that finds the reader empty removes its file, and
   * a pass that runs out before `r` records is the last one.
   */
  function SplitFrom(files: map<string, seq<Row>>, header: Row, rows: seq<Row>, r: nat,
                     folder: string, clock: nat -> (string, string), k: nat): map<string, seq<Row>>
    requires r > 0
    decreases |rows|
  {
    var path := Target(folder, clock, k);
    if |rows| == 0 then files - {path}
    else if |rows| < r then files[path := [header] + rows]
    else SplitFrom(files[path := [header] + rows[..r]], header, rows[r..], r, folder, clock, k + 1)
  }

  /**
   * `split_csv`: refuse a non-positive batch size, read the header, then
   * open one batch file per pass and copy records into it until it holds
   * `records_per_file` of them or the reader is exhausted; a file that got
   * no record is deleted again.
   */
  method SplitCsv(dir: Directory, source: seq<Row>, folder: string, recordsPerFile: int,
                  clock: nat -> (string, string)) returns (result: Result<(), SplitFault>)
    modifies dir
    ensures recordsPerFile <= 0 ==> result == Fail(NonPositiveRecords) && dir.files == old(dir.files)
    ensures recordsPerFile > 0 && |source| == 0 ==> result == Fail(NoHeader) && dir.files == old(dir.files)
    ensures recordsPerFile > 0 && |source| > 0 ==>
      && result == Ok(())
      && dir.files == SplitFrom(old(dir.files), source[0], source[1..], recordsPerFile, folder, clock, 0)
  {
    if recordsPerFile <= 0 {
      return Fail(NonPositiveRecords);
    }
    if |source| == 0 {
      return Fail(NoHeader);
    }
    var r: nat := recordsPerFile;
    var header, rows := source[0], source[1..];
    ghost var goal := SplitFrom(dir.files, header, rows, r, folder, clock, 0);
    var next := 0;
    var fileIdx := 0;
    var recordsExist := true;
    while recordsExist
      invariant next <= |rows|
      invariant recordsExist ==> SplitFrom(dir.files, header, rows[next..], r, folder, clock, fileIdx) == goal
      invariant !recordsExist ==> dir.files == goal
      decreases |rows| - next + (if recordsExist then 1 else 0)
    {
      var exhausted;
      next, exhausted := OnePass(dir, header, rows, next, r, folder, clock, fileIdx);
      if exhausted {
        recordsExist := false;
      }
      fileIdx := fileIdx + 1;
    }
    result := Ok(());
  }

  /**
   * One pass of the outer loop of `split_csv`: open the `k`-th batch file,
   * fill it, and delete it again when no record went in.
   */
  method OnePass(dir: Directory, header: Row, rows: seq<Row>, start: nat, r: nat,
                 folder: string, clock: nat -> (string, string), k: nat) returns (next: nat, exhausted: bool)
    requires r > 0 && start <= |rows|
    modifies dir
    ensures exhausted <==> |rows| - start < r
    ensures next == if exhausted then |rows| else start + r
    ensures exhausted ==> dir.files == SplitFrom(old(dir.files), header, rows[start..], r, folder, clock, k)
    ensures !exhausted ==>
      SplitFrom(old(dir.files), header, rows[start..], r, folder, clock, k)
        == SplitFrom(dir.files, header, rows[next..], r, folder, clock, k + 1)
  {
    var path := Target(folder, clock, k);
    ghost var before := dir.files;
    dir.Create(path);
    next, exhausted := WriteBatch(dir, path, header, rows, start, r);
    if next == start {
      dir.Remove(path);
    }
    if exhausted {
      LastPass(before, header, rows, start, r, folder, clock, k);
      assert rows[start..next] == rows[start..];
    } else {
      NextPass(before, header, rows, start, r, folder, clock, k);
      assert dir.files == before[path := [header] + rows[start..start + r]];
    }
  }

  /** The pass that finds fewer than `r` records left is the last one: it keeps its file only when it wrote a record. */
  lemma LastPass(before: map<string, seq<Row>>, header: Row, rows: seq<Row>, start: nat, r: nat,
                 folder: string, clock: nat -> (string, string), k: nat)
    requires r > 0 && start <= |rows| && |rows| - start < r
    ensures var path := Target(folder, clock, k);
      var written := before[path := [header] + rows[start..]];
      SplitFrom(before, header, rows[start..], r, folder, clock, k)
        == if start == |rows| then written - {path} else written
  {
    var path := Target(folder, clock, k);
    if start == |rows| {
      assert before[path := [header] + rows[start..]] - {path} == before - {path};
    }
  }

  /** A pass that copies `r` records leaves the rest to the next pass. */
  lemma NextPass(before: map<string, seq<Row>>, header: Row, rows: seq<Row>, start: nat, r: nat,
                 folder: string, clock: nat -> (string, string), k: nat)
    requires r > 0 && start + r <= |rows|
    ensures SplitFrom(before, header, rows[start..], r, folder, clock, k)
         == SplitFrom(before[Target(folder, clock, k) := [header] + rows[start..start + r]], header, rows[start + r..], r, folder, clock, k + 1)
  {
    var remaining := rows[start..];
    assert remaining[..r] == rows[start..start + r] && remaining[r..] == rows[start + r..];
  }

  /**
   * The inner loop of one pass over a freshly opened file: the header, then
   * records until the file holds `r` of them or the reader runs dry.
   */
  method WriteBatch(dir: Directory, path: string, header: Row, rows: seq<Row>, start: nat, r: nat)
    returns (next: nat, exhausted: bool)
    requires r > 0 && start <= |rows| && path in dir.files && dir.files[path] == []
    modifies dir
    ensures exhausted <==> |rows| - start < r
    ensures next == if exhausted then |rows| else start + r
    ensures dir.files == old(dir.files)[path := [header] + rows[start..next]]
  {
    next, exhausted := start, false;
    ghost var blank := dir.files;
    var i := 0;
    while i < r
      invariant 0 <= i <= r && next == start + i <= |rows|
      invariant i > 0 ==> dir.files == blank[path := [header] + rows[start..next]]
      invariant i == 0 ==> dir.files == blank
    {
      if i == 0 {
        dir.WriteRow(path, header);
        assert blank[path] + [header] == [header] + rows[start..next];
      }
      if next < |rows| {
        ghost var written := dir.files[path];
        dir.WriteRow(path, rows[next]);
        assert written + [rows[next]] == [header] + rows[start..next + 1];
        next := next + 1;
        i := i + 1;
      } else {
        exhausted := true;
        break;
      }
    }
  }

  /** `rows` cut into consecutive batches of `r`, the last one possibly shorter. */
  function Batches(rows: seq<Row>, r: nat): (batches: seq<seq<Row>>)
    requires r > 0
    decreases |rows|
  {
    if |rows| == 0 then []
    else if |rows| <= r then [rows]
    else [rows[..r]] + Batches(rows[r..], r)
  }

  /** The batches laid end to end. */
  function Concat(batches: seq<seq<Row>>): seq<Row>
    decreases |batches|
  {
    if |batches| == 0 then [] else batches[0] + Concat(batches[1..])
  }

  /**
   * Nothing is lost or duplicated: the batches laid end to end are the
   * records; every batch holds at least one and at most `r` records, all
   * but the last exactly `r`, and there are ceil(N / r) of them.
   */
  lemma BatchesSpec(rows: seq<Row>, r: nat)
    requires r > 0
    ensures Concat(Batches(rows, r)) == rows
    ensures |Batches(rows, r)| == (|rows| + r - 1) / r
    ensures forall k :: 0 <= k < |Batches(rows, r)| ==> 0 < |Batches(rows, r)[k]| <= r
    ensures forall k :: 0 <= k < |Batches(rows, r)| - 1 ==> |Batches(rows, r)[k]| == r
  {
    BatchesConcat(rows, r);
    BatchesCount(rows, r);
    BatchesSizes(rows, r);
  }

  lemma {:induction false} BatchesConcat(rows: seq<Row>, r: nat)
    requires r > 0
    ensures Concat(Batches(rows, r)) == rows
    decreases |rows|
  {
    if |rows| > r {
      BatchesConcat(rows[r..], r);
      assert Batches(rows, r)[1..] == Batches(rows[r..], r);
      assert rows == rows[..r] + rows[r..];
    } else if |rows| > 0 {
      assert Concat([rows]) == rows + Concat([]);
    }
  }

  lemma {:induction false} BatchesCount(rows: seq<Row>, r: nat)
    requires r > 0
    ensures |Batches(rows, r)| == (|rows| + r - 1) / r
    decreases |rows|
  {
    if |rows| > r {
      var rest := rows[r..];
      BatchesCount(rest, r);
      assert |rows| + r - 1 == (|rest| + r - 1) + r;
      DivShift(|rest| + r - 1, r);
    } else if |rows| > 0 {
      DivUnique(|rows| + r - 1, r, 1, |rows| - 1);
    } else {
      DivUnique(r - 1, r, 0, r - 1);
    }
  }

  lemma {:induction false} BatchesSizes(rows: seq<Row>, r: nat)
    requires r > 0
    ensures forall k :: 0 <= k < |Batches(rows, r)| ==> 0 < |Batches(rows, r)[k]| <= r
    ensures forall k :: 0 <= k < |Batches(rows, r)| - 1 ==> |Batches(rows, r)[k]| == r
    decreases |rows|
  {
    if |rows| > r {
      var rest := rows[r..];
      BatchesSizes(rest, r);
      var bs := Batches(rows, r);
      assert bs == [rows[..r]] + Batches(rest, r);
      forall k | 0 < k < |bs| ensures bs[k] == Batches(rest, r)[k - 1] {
      }
    }
  }

  /** Adding `r` to a non-negative number adds one to its quotient by `r`. */
  lemma DivShift(a: nat, r: nat)
    requires r > 0
    ensures (a + r) / r == a / r + 1
  {
    var q, m := a / r, a % r;
    assert a == r * q + m;
    assert a + r == r * (q + 1) + m;
    DivUnique(a + r, r, q + 1, m);
  }

  /** Quotient and remainder are unique. */
  lemma DivUnique(n: int, r: int, q: int, m: int)
    requires r > 0 && 0 <= m < r && n == r * q + m
    ensures n / r == q
  {
    var q', m' := n / r, n % r;
    assert n == r * q' + m';
    assert r * (q - q') == m' - m;
    if q - q' >= 1 {
      MulAtLeast(r, q - q');
    } else if q' - q >= 1 {
      MulAtLeast(r, q' - q);
    }
  }

  lemma MulAtLeast(r: int, d: int)
    requires r > 0 && d >= 1
    ensures r * d >= r
  {
  }

  /** The number of passes of the outer loop: one more than the number of full batches. */
  function Passes(rows: seq<Row>, r: nat): nat
    requires r > 0
  {
    |rows| / r + 1
  }

  /** The passes `k` to `k + n - 1` open pairwise different files. */
  ghost predicate DistinctTargets(folder: string, clock: nat -> (string, string), k: nat, n: nat) {
    forall a, b :: k <= a < b < k + n ==> Target(folder, clock, a) != Target(folder, clock, b)
  }

  /** When the passes open different files, the batch of pass `a` is in that pass's file behind the header. */
  lemma {:induction false} SplitFromBatches(files: map<string, seq<Row>>, header: Row, rows: seq<Row>, r: nat,
                                            folder: string, clock: nat -> (string, string), k: nat)
    requires r > 0
    requires DistinctTargets(folder, clock, k, Passes(rows, r))
    ensures BatchesHeld(SplitFrom(files, header, rows, r, folder, clock, k), header, rows, r, folder, clock, k)
    decreases |rows|
  {
    if |rows| >= r {
      var path := Target(folder, clock, k);
      var rest := rows[r..];
      var mid := files[path := [header] + rows[..r]];
      PassesShift(rows, r);
      DistinctTail(folder, clock, k, Passes(rest, r));
      SplitFromBatches(mid, header, rest, r, folder, clock, k + 1);
      var after := SplitFrom(mid, header, rest, r, folder, clock, k + 1);
      SplitFromKeeps(mid, header, rest, r, folder, clock, k + 1, path);
      assert SplitFrom(files, header, rows, r, folder, clock, k) == after;
      StepBatches(after, header, rows, r, folder, clock, k);
    } else if |rows| > 0 {
      LastBatch(files, header, rows, r, folder, clock, k);
    } else {
      assert Batches(rows, r) == [];
    }
  }

  /** A pass that finds fewer than `r` records writes them as the last batch. */
  lemma LastBatch(files: map<string, seq<Row>>, header: Row, rows: seq<Row>, r: nat,
                  folder: string, clock: nat -> (string, string), k: nat)
    requires 0 < |rows| < r
    ensures BatchesHeld(SplitFrom(files, header, rows, r, folder, clock, k), header, rows, r, folder, clock, k)
  {
    var path := Target(folder, clock, k);
    var after := files[path := [header] + rows];
    assert SplitFrom(files, header, rows, r, folder, clock, k) == after;
    assert Batches(rows, r) == [rows];
    assert after[path] == [header] + Batches(rows, r)[0];
  }

  /** Pass `k + j`'s file holds the header and the `j`-th batch, for every batch. */
  ghost predicate BatchesHeld(after: map<string, seq<Row>>, header: Row, rows: seq<Row>, r: nat,
                              folder: string, clock: nat -> (string, string), k: nat)
    requires r > 0
  {
    forall a :: k <= a < k + |Batches(rows, r)| ==>
      Target(folder, clock, a) in after && after[Target(folder, clock, a)] == [header] + Batches(rows, r)[a - k]
  }

  /** Later passes open files different from each other and from the first pass's. */
  lemma DistinctTail(folder: string, clock: nat -> (string, string), k: nat, n: nat)
    requires DistinctTargets(folder, clock, k, n + 1)
    ensures DistinctTargets(folder, clock, k + 1, n)
    ensures !IsTarget(Target(folder, clock, k), folder, clock, k + 1, n)
  {
  }

  /** A pass that filled its file with the first `r` records, followed by passes holding the later batches, holds all batches. */
  lemma StepBatches(after: map<string, seq<Row>>, header: Row, rows: seq<Row>, r: nat,
                    folder: string, clock: nat -> (string, string), k: nat)
    requires r > 0 && |rows| >= r
    requires Target(folder, clock, k) in after && after[Target(folder, clock, k)] == [header] + rows[..r]
    requires BatchesHeld(after, header, rows[r..], r, folder, clock, k + 1)
    ensures BatchesHeld(after, header, rows, r, folder, clock, k)
  {
    var bs, rest := Batches(rows, r), Batches(rows[r..], r);
    if |rows| == r {
      assert bs == [rows] && rows[..r] == rows;
    } else {
      assert bs == [rows[..r]] + rest;
      forall a | k <= a < k + |bs|
        ensures Target(folder, clock, a) in after && after[Target(folder, clock, a)] == [header] + bs[a - k]
      {
        if a > k {
          assert k + 1 <= a < k + 1 + |rest|;
          assert bs[a - k] == rest[a - (k + 1)];
        }
      }
    }
  }

  /** One full batch takes one pass. */
  lemma PassesShift(rows: seq<Row>, r: nat)
    requires r > 0 && |rows| >= r
    ensures Passes(rows[r..], r) + 1 == Passes(rows, r)
  {
    assert |rows| == |rows[r..]| + r;
    DivShift(|rows[r..]|, r);
  }

  /** A file no pass opens is as it was. */
  lemma {:induction false} SplitFromKeeps(files: map<string, seq<Row>>, header: Row, rows: seq<Row>, r: nat,
                                          folder: string, clock: nat -> (string, string), k: nat, p: string)
    requires r > 0
    requires !IsTarget(p, folder, clock, k, Passes(rows, r))
    ensures var after := SplitFrom(files, header, rows, r, folder, clock, k);
      (p in after <==> p in files) && (p in files ==> after[p] == files[p])
    decreases |rows|
  {
    assert p != Target(folder, clock, k);
    if |rows| >= r {
      var rest := rows[r..];
      PassesShift(rows, r);
      assert !IsTarget(p, folder, clock, k + 1, Passes(rest, r));
      SplitFromKeeps(files[Target(folder, clock, k) := [header] + rows[..r]], header, rest, r, folder, clock, k + 1, p);
    }
  }

  /** No file a pass opened is left holding the header alone. */
  lemma {:induction false} SplitFromNoHeaderOnly(files: map<string, seq<Row>>, header: Row, rows: seq<Row>, r: nat,
                                                 folder: string, clock: nat -> (string, string), k: nat)
    requires r > 0
    ensures NoHeaderOnly(SplitFrom(files, header, rows, r, folder, clock, k), folder, clock, k, Passes(rows, r))
    decreases |rows|
  {
    var path := Target(folder, clock, k);
    if |rows| >= r {
      var rest := rows[r..];
      var mid := files[path := [header] + rows[..r]];
      PassesShift(rows, r);
      SplitFromNoHeaderOnly(mid, header, rest, r, folder, clock, k + 1);
      var after := SplitFrom(mid, header, rest, r, folder, clock, k + 1);
      assert SplitFrom(files, header, rows, r, folder, clock, k) == after;
      if path in after && !IsTarget(path, folder, clock, k + 1, Passes(rest, r)) {
        SplitFromKeeps(mid, header, rest, r, folder, clock, k + 1, path);
        assert after[path] == [header] + rows[..r];
      }
      NoHeaderStep(after, folder, clock, k, Passes(rest, r));
    } else {
      DivUnique(|rows|, r, 0, |rows|);
      assert Passes(rows, r) == 1;
      if |rows| > 0 {
        assert SplitFrom(files, header, rows, r, folder, clock, k) == files[path := [header] + rows];
      }
    }
  }

  /** Every file among passes `k` to `k + n - 1` that is still there holds more than the header. */
  ghost predicate NoHeaderOnly(after: map<string, seq<Row>>, folder: string, clock: nat -> (string, string), k: nat, n: nat) {
    forall a :: k <= a < k + n && Target(folder, clock, a) in after ==> |after[Target(folder, clock, a)]| >= 2
  }

  /** Pass `k`'s file holds more than the header unless a later pass reopened it. */
  lemma NoHeaderStep(after: map<string, seq<Row>>, folder: string, clock: nat -> (string, string), k: nat, n: nat)
    requires NoHeaderOnly(after, folder, clock, k + 1, n)
    requires var path := Target(folder, clock, k);
      path in after && !IsTarget(path, folder, clock, k + 1, n) ==> |after[path]| >= 2
    ensures NoHeaderOnly(after, folder, clock, k, n + 1)
  {
    var path := Target(folder, clock, k);
    if path in after && IsTarget(path, folder, clock, k + 1, n) {
      var a :| k + 1 <= a < k + 1 + n && path == Target(folder, clock, a);
    }
  }

  /** `p` is the file of one of the passes `k` to `k + n - 1`. */
  ghost predicate IsTarget(p: string, folder: string, clock: nat -> (string, string), k: nat, n: nat) {
    exists a :: k <= a < k + n && p == Target(folder, clock, a)
  }

  /**
   * What `split_csv` leaves in the folder, for distinct clock readings: the
   * batch files in the order they were opened hold the header followed by
   * consecutive batches that together are exactly the source's records;
   * ceil(N / r) files are kept, none header-only, and other files are kept
   * as they were.
   */
  lemma SplitCsvSpec(files: map<string, seq<Row>>, source: seq<Row>, r: nat, folder: string, clock: nat -> (string, string))
    requires r > 0 && |source| > 0
    requires DistinctTargets(folder, clock, 0, Passes(source[1..], r))
    ensures var after := SplitFrom(files, source[0], source[1..], r, folder, clock, 0);
      var batches := Batches(source[1..], r);
      && Concat(batches) == source[1..]
      && |batches| == (|source| - 1 + r - 1) / r
      && (forall j :: 0 <= j < |batches| ==>
           && Target(folder, clock, j) in after
           && after[Target(folder, clock, j)] == [source[0]] + batches[j]
           && 0 < |batches[j]| <= r
           && (j < |batches| - 1 ==> |batches[j]| == r))
      && (forall j :: 0 <= j < Passes(source[1..], r) && Target(folder, clock, j) in after ==>
           |after[Target(folder, clock, j)]| >= 2)
      && (forall p :: !IsTarget(p, folder, clock, 0, Passes(source[1..], r)) ==>
           (p in after <==> p in files) && (p in files ==> after[p] == files[p]))
  {
    BatchesSpec(source[1..], r);
    SplitFromBatches(files, source[0], source[1..], r, folder, clock, 0);
    forall p | !IsTarget(p, folder, clock, 0, Passes(source[1..], r)) {
      SplitFromKeeps(files, source[0], source[1..], r, folder, clock, 0, p);
    }
    SplitFromNoHeaderOnly(files, source[0], source[1..], r, folder, clock, 0);
  }
}
