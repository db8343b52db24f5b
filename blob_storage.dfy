/**
 * The Azure container operations of `Blob_Operation`, over a container held
 * as the map from blob name to content.
 *
 * A blob "folder" is a name prefix ending in `/`. Listing returns every blob
 * under a prefix once, in an order the model leaves open.
 */
module BlobStorage {
  import opened Wrappers
  import opened Text
  import opened Storage
  import ModelUtils

  /** `str(idx)`, where an index left as `None` prints as "None". */
  function IndexText(idx: Option<nat>): string {
    match idx
    case None => "None"
    case Some(i) => NatToString(i)
  }

  /** `save_model`'s file name: the clustering model has no index, every other model carries `str(idx)`. */
  function ModelFileName(modelName: string, idx: Option<nat>, format: string): (file: string)
    ensures modelName == ModelUtils.KMeans ==> file == modelName + format
    ensures modelName != ModelUtils.KMeans ==> file == modelName + IndexText(idx) + format
  {
    if modelName == ModelUtils.KMeans then modelName + format else modelName + IndexText(idx) + format
  }

  /** The stem `load_model` must be given to find a model saved as `ModelFileName(modelName, idx, _)`. */
  function ModelStem(modelName: string, idx: Option<nat>): string {
    if modelName == ModelUtils.KMeans then modelName else modelName + IndexText(idx)
  }

  /** Per-cluster models of one class saved under different indices get different files. */
  lemma ModelFileNamesDistinct(modelName: string, i: nat, j: nat, format: string)
    requires modelName != ModelUtils.KMeans && i != j
    ensures ModelFileName(modelName, Some(i), format) != ModelFileName(modelName, Some(j), format)
  {
    var a, b := ModelFileName(modelName, Some(i), format), ModelFileName(modelName, Some(j), format);
    if a == b {
      var k := |modelName|;
      var si, sj := NatToString(i), NatToString(j);
      if |si| == |sj| {
        assert si == a[k..k + |si|] == b[k..k + |sj|] == sj;
        NatToStringInjective(i, j);
      }
    }
  }

  /** `save_model`'s blob name: `model_dir + "/" + file`, or the bare file without a directory. */
  function SavePath(dir: Option<string>, file: string): string {
    match dir
    case None => file
    case Some(d) => d + "/" + file
  }

  /** `load_model`'s blob name: `model_dir + model_name + format`, with no separator. */
  function LoadPath(dir: Option<string>, name: string, format: string): string {
    match dir
    case None => name + format
    case Some(d) => d + name + format
  }

  /**
   * Loading finds a saved model when it is given the save directory with a
   * trailing `/`, and given any other directory it looks elsewhere.
   */
  lemma LoadPathWithSlash(d: string, stem: string, format: string)
    ensures LoadPath(Some(d + "/"), stem, format) == SavePath(Some(d), stem + format)
    ensures LoadPath(None, stem, format) == SavePath(None, stem + format)
    ensures forall x :: LoadPath(Some(x), stem, format) == SavePath(Some(d), stem + format) <==> x == d + "/"
  {
    assert d + "/" + stem + format == d + "/" + (stem + format);
    forall x | LoadPath(Some(x), stem, format) == SavePath(Some(d), stem + format)
      ensures x == d + "/"
    {
      var p := SavePath(Some(d), stem + format);
      assert |x| == |d| + 1;
      assert x == p[..|x|] == (d + "/");
    }
  }

  /** Given the same directory the save used, loading looks one `/` short and never finds the file. */
  lemma LoadPathSameDir(d: string, stem: string, format: string)
    ensures LoadPath(Some(d), stem, format) != SavePath(Some(d), stem + format)
  {
    assert |LoadPath(Some(d), stem, format)| + 1 == |SavePath(Some(d), stem + format)|;
  }

  /** `pickle.loads` of the blob at `path`. */
  function ModelAt(blobs: map<string, Blob>, path: string): (r: Result<Model, Fault>)
    ensures r.Ok? <==> path in blobs && blobs[path].Pickle?
    ensures r.Ok? ==> blobs[path] == Pickle(r.value)
  {
    if path !in blobs then Fail(NotFound(path))
    else match blobs[path]
      case Pickle(m) => Ok(m)
      case _ => Fail(NotModel(path))
  }

  /**
   * What `save_model` writes, `load_model` reads back: after storing `model`
   * under its save path, loading its stem from the directory with a trailing
   * `/` returns that model.
   */
  lemma SaveThenLoad(blobs: map<string, Blob>, model: Model, d: Option<string>, idx: Option<nat>, format: string)
    ensures var name := ModelUtils.ModelName(model);
      var saved := blobs[SavePath(d, ModelFileName(name, idx, format)) := Pickle(model)];
      var loadDir := match d case None => None case Some(x) => Some(x + "/");
      ModelAt(saved, LoadPath(loadDir, ModelStem(name, idx), format)) == Ok(model)
  {
    var name := ModelUtils.ModelName(model);
    var stem := ModelStem(name, idx);
    assert ModelFileName(name, idx, format) == stem + format;
    match d
    case None => LoadPathWithSlash("", stem, format);
    case Some(x) => LoadPathWithSlash(x, stem, format);
  }

  /** An Azure storage container. */
  class Container {
    var blobs: map<string, Blob>
    /** `model_save_format`, the extension models are saved with. */
    const saveFormat: string

    constructor (initial: map<string, Blob>, format: string)
      ensures blobs == initial && saveFormat == format
    {
      blobs := initial;
      saveFormat := format;
    }

    /** The blobs under `folder`: names starting with `folder + "/"`. */
    function InFolder(folder: string): set<string>
      reads this
    {
      set n | n in blobs && StartsWith(n, folder + "/")
    }

    /** `delete_file`: the service raises for a missing blob. */
    method DeleteFile(name: string) returns (r: Result<(), Fault>)
      modifies this
      ensures name in old(blobs) ==> r.Ok? && blobs == old(blobs) - {name}
      ensures name !in old(blobs) ==> r == Fail(NotFound(name)) && blobs == old(blobs)
    {
      if name in blobs {
        blobs := blobs - {name};
        r := Ok(());
      } else {
        r := Fail(NotFound(name));
      }
    }

    /**
     * `upload_file`: with `replace`, delete an existing blob of that name and
     * upload the local file; without it, upload nothing. With `remove`, the
     * local file is then deleted, uploaded or not.
     */
    method UploadFile(disk: LocalDisk, localName: string, name: string, remove: bool, replace: bool)
      returns (r: Result<(), Fault>)
      modifies this, disk
      ensures replace && localName !in old(disk.files) ==>
        r == Fail(LocalNotFound(localName)) && blobs == old(blobs) - {name} && disk.files == old(disk.files)
      ensures replace && localName in old(disk.files) ==>
        r.Ok? && blobs == old(blobs)[name := old(disk.files)[localName]]
        && disk.files == if remove then old(disk.files) - {localName} else old(disk.files)
      ensures !replace ==> blobs == old(blobs)
      ensures !replace && remove ==> (r.Ok? <==> localName in old(disk.files)) && disk.files == old(disk.files) - {localName}
      ensures !replace && !remove ==> r.Ok? && disk.files == old(disk.files)
    {
      if replace {
        if name in blobs {
          var _ := DeleteFile(name);
        }
        if localName !in disk.files {
          return Fail(LocalNotFound(localName));
        }
        blobs := blobs[name := disk.files[localName]];
      }
      if remove {
        r := disk.Remove(localName);
      } else {
        r := Ok(());
      }
    }

    /** `upload_df_as_csv`: write the frame to a local file, then upload it replacing any blob and remove the local copy. */
    method UploadDfAsCsv(disk: LocalDisk, frame: Frame, localName: string, name: string)
      modifies this, disk
      ensures blobs == old(blobs)[name := Csv(frame)]
      ensures disk.files == old(disk.files) - {localName}
    {
      disk.Write(localName, Csv(frame));
      var _ := UploadFile(disk, localName, name, true, true);
    }

    /** `get_files_from_folder`: every blob under `folder`, each once. */
    method GetFilesFromFolder(folder: string) returns (names: seq<string>)
      ensures Distinct(names)
      ensures forall n :: n in names <==> n in InFolder(folder)
    {
      var remaining := InFolder(folder);
      names := [];
      while remaining != {}
        invariant remaining <= InFolder(folder)
        invariant Distinct(names)
        invariant forall n :: n in names <==> n in InFolder(folder) && n !in remaining
        decreases remaining
      {
        var n :| n in remaining;
        names := names + [n];
        remaining := remaining - {n};
      }
    }

    /** `read_csv`: the table stored under `name`. */
    function ReadCsv(name: string): (r: Result<Frame, Fault>)
      reads this
      ensures r.Ok? <==> name in blobs && blobs[name].Csv?
      ensures r.Ok? ==> blobs[name] == Csv(r.value)
    {
      if name !in blobs then Fail(NotFound(name))
      else match blobs[name]
        case Csv(f) => Ok(f)
        case _ => Fail(NotCsv(name))
    }

    /** `entries` lists every blob under `folder` once, each with its table and its last path segment. */
    ghost predicate FolderEntries(folder: string, entries: seq<FolderEntry>)
      reads this
    {
      && Distinct(EntryPaths(entries))
      && (forall n :: n in EntryPaths(entries) <==> n in InFolder(folder))
      && forall k :: 0 <= k < |entries| ==>
           entries[k].1 in blobs && blobs[entries[k].1] == Csv(entries[k].0)
           && entries[k].2 == LastSegment(entries[k].1, '/')
    }

    /** `read_csv_from_folder`: every table under `folder` is read before any is returned. */
    method ReadCsvFromFolder(folder: string) returns (r: Result<seq<FolderEntry>, Fault>)
      ensures r.Ok? ==> FolderEntries(folder, r.value)
      ensures r.Fail? ==> exists n :: n in InFolder(folder) && !blobs[n].Csv?
    {
      var files := GetFilesFromFolder(folder);
      var entries: seq<FolderEntry> := [];
      for k := 0 to |files|
        invariant EntryPaths(entries) == files[..k]
        invariant forall j :: 0 <= j < k ==>
          entries[j].1 in blobs && blobs[entries[j].1] == Csv(entries[j].0)
          && entries[j].2 == LastSegment(entries[j].1, '/')
      {
        var f := files[k];
        assert f in InFolder(folder);
        match ReadCsv(f)
        case Fail(e) =>
          return Fail(e);
        case Ok(frame) =>
          entries := entries + [(frame, f, LastSegment(f, '/'))];
          assert EntryPaths(entries) == files[..k + 1];
      }
      assert files[..|files|] == files;
      r := Ok(entries);
    }

    /** `load_model`: unpickle the blob at `LoadPath(dir, name, saveFormat)`. */
    function LoadModel(name: string, dir: Option<string>): (r: Result<Model, Fault>)
      reads this
      ensures r == ModelAt(blobs, LoadPath(dir, name, saveFormat))
    {
      ModelAt(blobs, LoadPath(dir, name, saveFormat))
    }

    /**
     * `save_model`: pickle the model to a local file named after its class
     * (and index), upload it under the directory, and remove the local file.
     */
    method SaveModel(disk: LocalDisk, model: Model, dir: Option<string>, idx: Option<nat>)
      modifies this, disk
      ensures var file := ModelFileName(ModelUtils.ModelName(model), idx, saveFormat);
        && blobs == old(blobs)[SavePath(dir, file) := Pickle(model)]
        && disk.files == old(disk.files) - {file}
    {
      var file := ModelFileName(ModelUtils.ModelName(model), idx, saveFormat);
      disk.Write(file, Pickle(model));
      var _ := UploadFile(disk, file, SavePath(dir, file), true, true);
    }

    /** `delete_folder`: delete every blob listed under `folder`. */
    method DeleteFolder(folder: string)
      modifies this
      ensures blobs == old(blobs) - old(InFolder(folder))
    {
      var files := GetFilesFromFolder(folder);
      ghost var listed := InFolder(folder);
      ghost var before := blobs;
      for k := 0 to |files|
        invariant blobs == before - set j | 0 <= j < k :: files[j]
      {
        assert files[k] in listed && files[k] in before;
        assert files[k] !in set j | 0 <= j < k :: files[j];
        var _ := DeleteFile(files[k]);
        assert (set j | 0 <= j < k + 1 :: files[j]) == (set j | 0 <= j < k :: files[j]) + {files[k]};
      }
      assert (set j | 0 <= j < |files| :: files[j]) == listed;
    }
  }

  /** `copy_data`: copy a blob, possibly between containers; a missing source raises. */
  method CopyData(src: Container, srcName: string, dst: Container, dstName: string) returns (r: Result<(), Fault>)
    modifies dst
    ensures srcName in old(src.blobs) ==> r.Ok? && dst.blobs == old(dst.blobs)[dstName := old(src.blobs)[srcName]]
    ensures srcName !in old(src.blobs) ==> r == Fail(NotFound(srcName)) && dst.blobs == old(dst.blobs)
  {
    if srcName !in src.blobs {
      return Fail(NotFound(srcName));
    }
    dst.blobs := dst.blobs[dstName := src.blobs[srcName]];
    r := Ok(());
  }

  /** The blobs of one container after `name` is moved to `dest` inside it. */
  function Moved(blobs: map<string, Blob>, name: string, dest: string): map<string, Blob>
    requires name in blobs
  {
    blobs[dest := blobs[name]] - {name}
  }

  /**
   * Moving inside one container leaves the content under `dest` and removes
   * `name`, unless the two are the same blob, which the final delete removes;
   * every other blob is kept with its content.
   */
  lemma MovedSpec(blobs: map<string, Blob>, name: string, dest: string)
    requires name in blobs
    ensures name != dest ==> dest in Moved(blobs, name, dest) && Moved(blobs, name, dest)[dest] == blobs[name]
    ensures name !in Moved(blobs, name, dest)
    ensures forall n :: n != name && n != dest ==> (n in Moved(blobs, name, dest) <==> n in blobs)
    ensures forall n :: n != name && n != dest && n in blobs ==> Moved(blobs, name, dest)[n] == blobs[n]
  {
  }

  /** `move_data`: copy, then delete the source. */
  method MoveData(src: Container, srcName: string, dst: Container, dstName: string) returns (r: Result<(), Fault>)
    modifies src, dst
    ensures srcName !in old(src.blobs) ==> r == Fail(NotFound(srcName)) && src.blobs == old(src.blobs) && dst.blobs == old(dst.blobs)
    ensures srcName in old(src.blobs) && src == dst ==> r.Ok? && src.blobs == Moved(old(src.blobs), srcName, dstName)
    ensures srcName in old(src.blobs) && src != dst ==>
      && r.Ok?
      && dst.blobs == old(dst.blobs)[dstName := old(src.blobs)[srcName]]
      && src.blobs == old(src.blobs) - {srcName}
  {
    r := CopyData(src, srcName, dst, dstName);
    if r.Ok? {
      r := src.DeleteFile(srcName);
    }
  }
}
