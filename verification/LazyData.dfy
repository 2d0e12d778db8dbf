/**
 * The lazy data-dependency dictionaries of the workers: a file is read when its key is
 * first asked for, and the bytes are kept.  A folder is a map from names to contents.
 */
module LazyData {
  import opened Basics

  /** C#: the indexer reads any file of the folder, listed as a dependency or not. */
  class ReadFromFolderDict {
    const folder: map<string, Bytes>
    const dataDependencies: seq<string>
    var data: map<string, Bytes>
    var filesRead: seq<string>

    constructor (folder: map<string, Bytes>, dataDependencies: seq<string>)
      ensures Valid() && this.folder == folder && this.dataDependencies == dataDependencies && filesRead == []
    {
      this.folder, this.dataDependencies := folder, dataDependencies;
      data, filesRead := map[], [];
    }

    /** Cached bytes are the file's bytes; the cache holds what was read, and nothing was read twice. */
    ghost predicate Valid()
      reads this
    {
      && Distinct(filesRead)
      && (forall k :: k in data <==> k in filesRead)
      && (forall k :: k in data ==> k in folder && data[k] == folder[k])
    }

    /** None is the exception of a missing file. */
    method Item(key: string) returns (value: Option<Bytes>)
      requires Valid()
      modifies this
      ensures Valid()
      ensures value == if key in folder then Some(folder[key]) else None
      ensures filesRead == old(filesRead) + if key in folder && key !in old(filesRead) then [key] else []
    {
      if key in data {
        return Some(data[key]);
      }
      if key !in folder {
        return None;
      }
      var bytes := folder[key];
      filesRead := filesRead + [key];
      data := data[key := bytes];
      value := Some(bytes);
    }

    method TryGetValue(key: string) returns (found: bool, value: Option<Bytes>)
      requires Valid()
      modifies this
      ensures Valid()
      ensures found <==> key in dataDependencies
      ensures value == if found && key in folder then Some(folder[key]) else None
      ensures filesRead == old(filesRead) + if found && key in folder && key !in old(filesRead) then [key] else []
    {
      found := key in dataDependencies;
      value := None;
      if found {
        value := Item(key);
      }
    }

    /** Walking the values stops at the first missing file. */
    method Values() returns (values: seq<Bytes>)
      requires Valid()
      modifies this
      ensures Valid()
      ensures |values| <= |dataDependencies|
      ensures forall i :: 0 <= i < |values| ==>
        dataDependencies[i] in folder && values[i] == folder[dataDependencies[i]]
      ensures |values| < |dataDependencies| ==> dataDependencies[|values|] !in folder
      ensures forall k :: k in filesRead <==> k in old(filesRead) || k in dataDependencies[..|values|]
    {
      values := [];
      for i := 0 to |dataDependencies|
        invariant Valid() && |values| == i
        invariant forall k :: 0 <= k < i ==> dataDependencies[k] in folder && values[k] == folder[dataDependencies[k]]
        invariant forall k :: k in filesRead <==> k in old(filesRead) || k in dataDependencies[..i]
      {
        var value := Item(dataDependencies[i]);
        if value.None? {
          return;
        }
        assert dataDependencies[..i + 1] == dataDependencies[..i] + [dataDependencies[i]];
        values := values + [value.value];
      }
    }
  }

  datatype PyLookup = Value(bytes: Bytes) | KeyError | FileError

  /** Python: the ids are the keys, each starting as None. */
  class LazyLoadDict {
    const folder: map<string, Bytes>
    var data: map<string, Option<Bytes>>
    var filesRead: seq<string>

    constructor (folder: map<string, Bytes>, ids: seq<string>)
      ensures Valid() && this.folder == folder && filesRead == []
      ensures data.Keys == set id | id in ids
    {
      this.folder := folder;
      data := map id | id in ids :: None;
      filesRead := [];
    }

    ghost predicate Valid()
      reads this
    {
      && Distinct(filesRead)
      && (forall k :: k in data && data[k].Some? <==> k in filesRead)
      && (forall k :: k in data && data[k].Some? ==> k in folder && data[k].value == folder[k])
    }

    method GetItem(key: string) returns (r: PyLookup)
      requires Valid()
      modifies this
      ensures Valid() && data.Keys == old(data.Keys)
      ensures r == if key !in data then KeyError else if key in folder then Value(folder[key]) else FileError
      ensures filesRead == old(filesRead) + if r.Value? && key !in old(filesRead) then [key] else []
    {
      if key !in data {
        return KeyError;
      }
      if data[key] == None {
        if key !in folder {
          return FileError;
        }
        filesRead := filesRead + [key];
        data := data[key := Some(folder[key])];
      }
      r := Value(data[key].value);
    }
  }
}
