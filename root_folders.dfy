/** Root folders: the folders volumes are stored under. The `root_folders`
    table and the in-memory cache of it are fields changed in place; whether
    a path is a directory and whether a volume uses a root folder are
    parameters, the answers of the file system and of the `volumes` table. */
module RootFolders {
  import opened Common
  import Tables

  /** `os.path.sep` on the systems the model describes. */
  const PathSep: char := '/'

  /** A root folder as the queries return it. */
  datatype RootFolder = RootFolder(id: int, folder: string)

  class RootFolderStore {
    /** The `root_folders` table: id to folder. */
    var table: map<int, string>
    /** The cache of the table, filled by `get_all`. */
    var cache: map<int, string>

    /** Row ids are positive and no folder is in two rows (the UNIQUE
        constraint on `folder`). */
    ghost predicate Valid()
      reads this
    {
      && (forall id | id in table :: id > 0)
      && (forall i, j | i in table && j in table && table[i] == table[j] :: i == j)
    }

    /** A store over an existing table with an empty cache. */
    constructor(initial: map<int, string>)
      requires forall id | id in initial :: id > 0
      requires forall i, j | i in initial && j in initial && initial[i] == initial[j] :: i == j
      ensures Valid() && table == initial && cache == map[]
    {
      table := initial;
      cache := map[];
    }

    /** Some row holds the folder. */
    predicate HasFolder(folder: string)
      reads this
    {
      exists id | id in table :: table[id] == folder
    }

    /** `get_all`: reloads the cache from the table when it is empty or the
        cache is not to be used, and returns the cached folders in id
        order. */
    method GetAll(useCache: bool) returns (folders: seq<RootFolder>)
      requires Valid()
      modifies this
      ensures Valid() && table == old(table)
      ensures cache == if old(cache) == map[] || !useCache then table else old(cache)
      ensures |folders| == |cache.Keys|
      ensures forall i, j | 0 <= i < j < |folders| :: folders[i].id < folders[j].id
      ensures forall i | 0 <= i < |folders| :: folders[i].id in cache && cache[folders[i].id] == folders[i].folder
      ensures forall id | id in cache :: exists i | 0 <= i < |folders| :: folders[i].id == id
    {
      if cache == map[] || !useCache {
        cache := table;
      }
      folders := Listing(cache);
    }

    /** Reloads the cache from the table (`get_all(use_cache=False)` with
        its result dropped). */
    method Refresh()
      requires Valid()
      modifies this
      ensures Valid() && table == old(table) && cache == table
    {
      cache := table;
    }

    /** `get_one`: the cached folder with that id, after reloading the cache
        when it is not to be used; `RootFolderNotFound` when there is none. */
    method GetOne(id: int, useCache: bool) returns (r: Result<RootFolder>)
      requires Valid()
      modifies this
      ensures Valid() && table == old(table)
      ensures cache == if useCache then old(cache) else table
      ensures r.Ok? <==> id in cache
      ensures r.Ok? ==> r.value == RootFolder(id, cache[id])
      ensures r.Err? ==> r.error == RootFolderNotFound
    {
      if !useCache {
        Refresh();
      }
      if id in cache {
        return Ok(RootFolder(id, cache[id]));
      }
      return Err(RootFolderNotFound);
    }

    /** `add`: a path that is not a directory is `FolderNotFound`; the path
        gets a trailing separator, a folder that is already a root folder
        breaks the UNIQUE constraint (`IntegrityError`, not caught), and
        otherwise the folder is inserted under the next row id and the
        cache is reloaded. */
    method Add(folder: string, isDir: bool) returns (r: Result<RootFolder>)
      requires Valid()
      modifies this
      ensures Valid()
      ensures !isDir ==> r == Err(FolderNotFound) && table == old(table) && cache == old(cache)
      ensures isDir && old(HasFolder(WithSep(folder))) ==>
        r == Err(IntegrityError) && table == old(table) && cache == old(cache)
      ensures isDir && !old(HasFolder(WithSep(folder))) ==>
        && r.Ok? && r.value.folder == WithSep(folder)
        && r.value.id !in old(table)
        && table == old(table)[r.value.id := WithSep(folder)]
        && cache == table
    {
      if !isDir {
        return Err(FolderNotFound);
      }
      var full := WithSep(folder);
      if id :| id in table && table[id] == full {
        return Err(IntegrityError);
      }
      var id := Tables.NextRowId(table.Keys);
      table := table[id := full];
      r := GetOne(id, false);
    }

    /** `delete`: a root folder a volume uses is `RootFolderInUse` (checked
        first); otherwise the row is removed, or `RootFolderNotFound` is
        raised when there was none, and the cache is reloaded after a
        removal. */
    method Delete(id: int, inUse: bool) returns (r: Result<()>)
      requires Valid()
      modifies this
      ensures Valid()
      ensures inUse ==> r == Err(RootFolderInUse) && table == old(table) && cache == old(cache)
      ensures !inUse && id !in old(table) ==>
        r == Err(RootFolderNotFound) && table == old(table) && cache == old(cache)
      ensures !inUse && id in old(table) ==>
        r == Ok(()) && table == old(table) - {id} && cache == table
    {
      if inUse {
        return Err(RootFolderInUse);
      }
      if id !in table {
        return Err(RootFolderNotFound);
      }
      table := table - {id};
      Refresh();
      return Ok(());
    }
  }

  /** The folders of an id-to-folder map in id order. */
  method Listing(m: map<int, string>) returns (folders: seq<RootFolder>)
    ensures |folders| == |m.Keys|
    ensures forall i, j | 0 <= i < j < |folders| :: folders[i].id < folders[j].id
    ensures forall i | 0 <= i < |folders| :: folders[i].id in m && m[folders[i].id] == folders[i].folder
    ensures forall id | id in m :: exists i | 0 <= i < |folders| :: folders[i].id == id
  {
    var ids := Tables.Ascending(m.Keys);
    forall i | 0 <= i < |ids| ensures ids[i] in m {
      assert ids[i] in ids;
    }
    folders := [];
    var n := 0;
    while n < |ids|
      invariant 0 <= n <= |ids|
      invariant |folders| == n
      invariant forall i | 0 <= i < n :: folders[i] == RootFolder(ids[i], m[ids[i]])
    {
      folders := folders + [RootFolder(ids[n], m[ids[n]])];
      n := n + 1;
    }
    forall id | id in m ensures exists i | 0 <= i < |folders| :: folders[i].id == id {
      var i :| 0 <= i < |ids| && ids[i] == id;
      assert folders[i].id == id;
    }
  }

  /** The folder with a trailing separator added when it has none. */
  function WithSep(folder: string): (r: string)
    ensures |r| > 0 && r[|r| - 1] == PathSep
    ensures folder == r || r == folder + [PathSep]
    ensures |folder| > 0 && folder[|folder| - 1] == PathSep ==> r == folder
  {
    if |folder| > 0 && folder[|folder| - 1] == PathSep then folder else folder + [PathSep]
  }
}
