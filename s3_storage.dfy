/**
 * The S3 bucket operations of `S3_Operation`, over a bucket held as the map
 * from object key to content.
 *
 * Unlike an Azure container, an S3 bucket overwrites on upload and ignores
 * the deletion of a missing key, and its prefix filter adds no `/`.
 */
module S3Storage {
  import opened Wrappers
  import opened Text
  import opened Storage
  import ModelUtils
  import BlobStorage

  /** `get_file_object`'s result: the lone object when exactly one key matches, else the list. */
  datatype FileObjects = One(key: string) | Many(keys: seq<string>)

  /** `lambda x: x[0] if len(x) == 1 else x`. */
  function Unwrap(objs: seq<string>): (r: FileObjects)
    ensures r.One? <==> |objs| == 1
    ensures r.One? ==> r.key == objs[0]
    ensures r.Many? ==> r.keys == objs
  {
    if |objs| == 1 then One(objs[0]) else Many(objs)
  }

  /** What `read_csv` returns: one frame, or one entry per object under the prefix. */
  datatype CsvRead = Table(frame: Frame) | Tables(entries: seq<FolderEntry>)

  /** An S3 bucket. */
  class Bucket {
    var objects: map<string, Blob>
    /** `file_format`, the extension models are saved with. */
    const fileFormat: string

    constructor (initial: map<string, Blob>, format: string)
      ensures objects == initial && fileFormat == format
    {
      objects := initial;
      fileFormat := format;
    }

    /** The keys `objects.filter(Prefix=prefix)` yields. */
    function WithPrefix(prefix: string): set<string>
      reads this
    {
      set k | k in objects && StartsWith(k, prefix)
    }

    /** The objects under `prefix`, each once, in an order the model leaves open. */
    method FilterPrefix(prefix: string) returns (keys: seq<string>)
      ensures Distinct(keys)
      ensures forall k :: k in keys <==> k in WithPrefix(prefix)
    {
      var remaining := WithPrefix(prefix);
      keys := [];
      while remaining != {}
        invariant remaining <= WithPrefix(prefix)
        invariant Distinct(keys)
        invariant forall k :: k in keys <==> k in WithPrefix(prefix) && k !in remaining
        decreases remaining
      {
        var k :| k in remaining;
        keys := keys + [k];
        remaining := remaining - {k};
      }
    }

    /**
     * `get_file_object`: the single object when exactly one key has the
     * prefix, otherwise the list of all of them, which may be empty.
     */
    method GetFileObject(prefix: string) returns (r: FileObjects)
      ensures r.One? <==> |WithPrefix(prefix)| == 1
      ensures r.One? ==> WithPrefix(prefix) == {r.key}
      ensures r.Many? ==> Distinct(r.keys) && forall k :: k in r.keys <==> k in WithPrefix(prefix)
    {
      var keys := FilterPrefix(prefix);
      DistinctCount(keys, WithPrefix(prefix));
      r := Unwrap(keys);
    }

    /** The table stored under `key`. */
    function CsvAt(key: string): (r: Result<Frame, Fault>)
      reads this
      ensures r.Ok? <==> key in objects && objects[key].Csv?
      ensures r.Ok? ==> objects[key] == Csv(r.value)
    {
      if key !in objects then Fail(NotFound(key))
      else match objects[key]
        case Csv(f) => Ok(f)
        case _ => Fail(NotCsv(key))
    }

    /**
     * `read_csv`: with `folder`, iterate what `get_file_object` returned,
     * which raises when it is a single object; without it, read what it
     * returned as one object, which raises when it is a list.
     */
    method ReadCsv(prefix: string, folder: bool) returns (r: Result<CsvRead, Fault>)
      ensures folder && |WithPrefix(prefix)| == 1 ==> r.Fail?
      ensures folder && |WithPrefix(prefix)| != 1 ==>
        (r.Ok? <==> forall k :: k in WithPrefix(prefix) ==> objects[k].Csv?)
      ensures !folder && |WithPrefix(prefix)| != 1 ==> r == Fail(NotAnObject(|WithPrefix(prefix)|))
      ensures !folder && |WithPrefix(prefix)| == 1 ==>
        exists k :: WithPrefix(prefix) == {k} && match CsvAt(k)
          case Ok(f) => r == Ok(Table(f))
          case Fail(e) => r == Fail(e)
      ensures folder && r.Ok? ==> (r.value.Tables? && Distinct(EntryPaths(r.value.entries))
        && (forall k :: k in EntryPaths(r.value.entries) <==> k in WithPrefix(prefix))
        && forall j :: 0 <= j < |r.value.entries| ==>
             var e := r.value.entries[j];
             e.1 in objects && objects[e.1] == Csv(e.0) && e.2 == LastSegment(e.1, '/'))
    {
      var objs := GetFileObject(prefix);
      if !folder {
        if objs.Many? {
          DistinctCount(objs.keys, WithPrefix(prefix));
          return Fail(NotAnObject(|objs.keys|));
        }
        var read := CsvAt(objs.key);
        if read.Fail? {
          return Fail(read.error);
        }
        return Ok(Table(read.value));
      }
      if objs.One? {
        return Fail(NotIterable(objs.key));
      }
      var keys := objs.keys;
      var entries: seq<FolderEntry> := [];
      for j := 0 to |keys|
        invariant EntryPaths(entries) == keys[..j]
        invariant forall i :: 0 <= i < j ==>
          entries[i].1 in objects && objects[entries[i].1] == Csv(entries[i].0)
          && entries[i].2 == LastSegment(entries[i].1, '/')
      {
        var read := CsvAt(keys[j]);
        if read.Fail? {
          assert keys[j] in WithPrefix(prefix) && !objects[keys[j]].Csv?;
          return Fail(read.error);
        }
        entries := entries + [(read.value, keys[j], LastSegment(keys[j], '/'))];
        assert EntryPaths(entries) == keys[..j + 1];
      }
      assert keys[..|keys|] == keys;
      r := Ok(Tables(entries));
    }

    /** `put_object`: create the folder marker `folder + "/"`. */
    method PutObject(folder: string)
      modifies this
      ensures objects == old(objects)[folder + "/" := Empty]
    {
      objects := objects[folder + "/" := Empty];
    }

    /**
     * `upload_file`: upload the local file, overwriting any object under
     * `dest`, then delete the local file only when `remove` is set.
     */
    method UploadFile(disk: LocalDisk, src: string, dest: string, remove: bool) returns (r: Result<(), Fault>)
      modifies this, disk
      ensures src !in old(disk.files) ==>
        r == Fail(LocalNotFound(src)) && objects == old(objects) && disk.files == old(disk.files)
      ensures src in old(disk.files) ==>
        && r.Ok?
        && objects == old(objects)[dest := old(disk.files)[src]]
        && disk.files == if remove then old(disk.files) - {src} else old(disk.files)
    {
      if src !in disk.files {
        return Fail(LocalNotFound(src));
      }
      objects := objects[dest := disk.files[src]];
      if remove {
        r := disk.Remove(src);
      } else {
        r := Ok(());
      }
    }

    /** `delete_file`: deleting a key that is not there is not an error in S3. */
    method DeleteFile(key: string)
      modifies this
      ensures objects == old(objects) - {key}
    {
      objects := objects - {key};
    }

    /**
     * `save_model`: pickle the model under its file name, upload it to
     * `model_dir + "/" + file` and report "success".
     */
    method SaveModel(disk: LocalDisk, model: Model, idx: Option<nat>, modelDir: string) returns (status: string)
      modifies this, disk
      ensures status == "success"
      ensures var file := BlobStorage.ModelFileName(ModelUtils.ModelName(model), idx, fileFormat);
        && objects == old(objects)[modelDir + "/" + file := Pickle(model)]
        && disk.files == old(disk.files) - {file}
    {
      var file := BlobStorage.ModelFileName(ModelUtils.ModelName(model), idx, fileFormat);
      disk.Write(file, Pickle(model));
      var _ := UploadFile(disk, file, modelDir + "/" + file, true);
      status := "success";
    }
  }

  /** A list without repeats is as long as the set of its elements. */
  lemma {:induction false} DistinctCount(keys: seq<string>, s: set<string>)
    requires Distinct(keys)
    requires forall k :: k in keys <==> k in s
    ensures |keys| == |s|
    decreases |keys|
  {
    if |keys| > 0 {
      var rest := keys[1..];
      assert Distinct(rest);
      assert forall k :: k in rest <==> k in s - {keys[0]};
      DistinctCount(rest, s - {keys[0]});
    } else {
      assert s == {};
    }
  }

  /** `copy_data`: copy an object, possibly between buckets; a missing source raises. */
  method CopyData(src: Bucket, srcKey: string, dst: Bucket, dstKey: string) returns (r: Result<(), Fault>)
    modifies dst
    ensures srcKey in old(src.objects) ==> r.Ok? && dst.objects == old(dst.objects)[dstKey := old(src.objects)[srcKey]]
    ensures srcKey !in old(src.objects) ==> r == Fail(NotFound(srcKey)) && dst.objects == old(dst.objects)
  {
    if srcKey !in src.objects {
      return Fail(NotFound(srcKey));
    }
    dst.objects := dst.objects[dstKey := src.objects[srcKey]];
    r := Ok(());
  }

  /** `move_data`: copy to the destination, then delete the source key. */
  method MoveData(src: Bucket, srcKey: string, dst: Bucket, dstKey: string) returns (r: Result<(), Fault>)
    modifies src, dst
    ensures srcKey !in old(src.objects) ==> r == Fail(NotFound(srcKey)) && src.objects == old(src.objects) && dst.objects == old(dst.objects)
    ensures srcKey in old(src.objects) && src == dst ==>
      r.Ok? && src.objects == old(src.objects)[dstKey := old(src.objects)[srcKey]] - {srcKey}
    ensures srcKey in old(src.objects) && src != dst ==>
      && r.Ok?
      && dst.objects == old(dst.objects)[dstKey := old(src.objects)[srcKey]]
      && src.objects == old(src.objects) - {srcKey}
  {
    r := CopyData(src, srcKey, dst, dstKey);
    if r.Ok? {
      src.DeleteFile(srcKey);
    }
  }
}
