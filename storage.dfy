/**
 * The values the pipeline stores: data frames read from CSV files, pickled
 * models, and the local working directory files pass through on their way
 * to and from cloud storage.
 */
module Storage {
  import opened Wrappers

  /** One cell of a data frame: pandas' missing value, or text. */
  datatype Cell = Missing | Value(text: string)

  /** A pandas data frame, column by column: `names[j]` heads `columns[j]`. */
  datatype Frame = Frame(names: seq<string>, columns: seq<seq<Cell>>)

  /** `df.shape[1]`: the number of columns. */
  function Width(f: Frame): nat {
    |f.names|
  }

  /** `len(col) - col.count() == len(col)`: no cell of the column holds a value (true of an empty column). */
  predicate AllMissing(col: seq<Cell>) {
    forall k :: 0 <= k < |col| ==> col[k] == Missing
  }

  /** A fitted estimator: only its class name is looked at; `id` tells fitted instances apart. */
  datatype Model = Model(className: string, id: nat)

  /** What a stored file holds once read back: a CSV table, a pickled model, or nothing (a folder marker). */
  datatype Blob = Csv(frame: Frame) | Pickle(model: Model) | Empty

  /** The exceptions the storage layer raises. */
  datatype Fault =
    | NotFound(name: string)        // the service has no object of that name
    | LocalNotFound(name: string)   // `open`/`os.remove` of a missing local file
    | NotCsv(name: string)          // `pd.read_csv` on content that is not a table
    | NotModel(name: string)        // `pickle.loads` on content that is not a model
    | NotIterable(name: string)     // iterating over a single storage object
    | NotAnObject(count: nat)       // reading a list of storage objects as one object

  /** The process's working directory, as the map from file name to content. */
  class LocalDisk {
    var files: map<string, Blob>

    constructor (initial: map<string, Blob>)
      ensures files == initial
    {
      files := initial;
    }

    /** `open(name, "w")` and a write of `content`. */
    method Write(name: string, content: Blob)
      modifies this
      ensures files == old(files)[name := content]
    {
      files := files[name := content];
    }

    /** `os.remove(name)`: raises when the file is missing. */
    method Remove(name: string) returns (r: Result<(), Fault>)
      modifies this
      ensures name in old(files) ==> r.Ok? && files == old(files) - {name}
      ensures name !in old(files) ==> r == Fail(LocalNotFound(name)) && files == old(files)
    {
      if name in files {
        files := files - {name};
        r := Ok(());
      } else {
        r := Fail(LocalNotFound(name));
      }
    }
  }

  /** `(frame, path, path.split("/")[-1])`: one table read from a folder. */
  type FolderEntry = (Frame, string, string)

  function EntryPaths(entries: seq<FolderEntry>): (paths: seq<string>)
    ensures |paths| == |entries|
    ensures forall k :: 0 <= k < |entries| ==> paths[k] == entries[k].1
  {
    seq(|entries|, k requires 0 <= k < |entries| => entries[k].1)
  }

  /** No two entries of `s` are equal. */
  predicate Distinct<T(==)>(s: seq<T>) {
    forall i, j :: 0 <= i < j < |s| ==> s[i] != s[j]
  }
}
