/**
 * The response cache of utils/__init__.py: responses are stored one per file
 * in a cache directory, under the digest of the request text. The directory
 * tree is a map from path to payload, the serialisation of a payload is the
 * identity, and the digest is a function the cache is given.
 */
module RequestCaches {
  import opened Wrappers
  import opened Strings

  datatype CacheError = CacheMiss(path: string)

  /** The file system the cache lives in: every stored file, by path. */
  class Disk<P> {
    var files: map<string, P>

    constructor(files0: map<string, P>)
      ensures files == files0
    {
      files := files0;
    }
  }

  /** The path of the cached response to `request`: `direc/<digest>`. */
  function PathOf(direc: string, digest: string -> string, request: string): string {
    direc + "/" + digest(request)
  }

  /** The path lies inside the cache directory and ends with the request's digest. */
  lemma PathLayout(direc: string, digest: string -> string, request: string)
    ensures var path := PathOf(direc, digest, request);
      && StartsWith(path, direc + "/")
      && path[|direc| + 1..] == digest(request)
  {
    var path := PathOf(direc, digest, request);
    assert path[..|direc| + 1] == direc + "/";
  }

  /** Requests with different digests are kept in different files. */
  lemma PathsApart(direc: string, digest: string -> string, r1: string, r2: string)
    requires digest(r1) != digest(r2)
    ensures PathOf(direc, digest, r1) != PathOf(direc, digest, r2)
  {
    PathLayout(direc, digest, r1);
    PathLayout(direc, digest, r2);
  }

  /** Reading a stored file; a missing file is an error, not a default. */
  function Load<P>(files: map<string, P>, path: string): (r: Result<P, CacheError>)
    ensures r.Success? <==> path in files
    ensures r.Success? ==> r.value == files[path]
    ensures r.Failure? ==> r.error == CacheMiss(path)
  {
    if path in files then Success(files[path]) else Failure(CacheMiss(path))
  }

  /** The file system after removing the cache directory and creating it again, empty. */
  function Wiped<P>(files: map<string, P>, direc: string): map<string, P> {
    map path | path in files && !StartsWith(path, direc + "/") :: files[path]
  }

  /**
   * A wipe leaves no response of the cache behind, removes nothing outside
   * the cache directory, and wiping twice is the same as wiping once.
   */
  lemma WipedContents<P>(files: map<string, P>, direc: string, digest: string -> string)
    ensures forall request :: PathOf(direc, digest, request) !in Wiped(files, direc)
    ensures forall path :: path in files && !StartsWith(path, direc + "/") ==>
      path in Wiped(files, direc) && Wiped(files, direc)[path] == files[path]
    ensures Wiped(Wiped(files, direc), direc) == Wiped(files, direc)
  {
    forall request
      ensures PathOf(direc, digest, request) !in Wiped(files, direc)
    {
      PathLayout(direc, digest, request);
    }
  }

  /** After storing `v` for a request, loading that request's path gives `v`. */
  lemma StoreThenLoad<P>(files: map<string, P>, direc: string, digest: string -> string, request: string, v: P)
    ensures Load(files[PathOf(direc, digest, request) := v], PathOf(direc, digest, request)) == Success(v)
  {
  }

  /** Storing one request leaves the entry of a request with another digest as it was. */
  lemma StoreKeepsOthers<P>(files: map<string, P>, direc: string, digest: string -> string,
                            request: string, v: P, other: string)
    requires digest(other) != digest(request)
    ensures Load(files[PathOf(direc, digest, request) := v], PathOf(direc, digest, other))
      == Load(files, PathOf(direc, digest, other))
  {
    PathsApart(direc, digest, request, other);
  }

  /**
   * `RequestCache(mode, direc)`: `"store"` wipes the cache directory when the
   * cache is made and stores fresh responses, `"reuse"` reads responses back,
   * and any other mode (`"off"`) leaves the cache alone.
   */
  class RequestCache<P> {
    const mode: string
    const direc: string
    /** `sha256(request).hexdigest()`, given rather than computed. */
    const digest: string -> string
    const disk: Disk<P>

    constructor(disk: Disk<P>, digest: string -> string, mode: string := "off", direc: string := "cache")
      modifies disk
      ensures this.mode == mode && this.direc == direc && this.digest == digest && this.disk == disk
      ensures disk.files == if mode == "store" then Wiped(old(disk.files), direc) else old(disk.files)
    {
      this.mode := mode;
      this.direc := direc;
      this.digest := digest;
      this.disk := disk;
      new;
      if mode == "store" {
        Wipe();
      }
    }

    /** `wipe()`: removes the cache directory with everything in it and creates it again, empty. */
    method Wipe()
      modifies disk
      ensures disk.files == Wiped(old(disk.files), direc)
      ensures forall request :: GetPath(request) !in disk.files
    {
      WipedContents(disk.files, direc, digest);
      disk.files := Wiped(disk.files, direc);
    }

    /** `get_path(request)`: the file in the cache directory named by the request's digest. */
    function GetPath(request: string): (path: string)
      ensures StartsWith(path, direc + "/") && path[|direc| + 1..] == digest(request)
    {
      PathLayout(direc, digest, request);
      PathOf(direc, digest, request)
    }

    /** `get_entry(request)`: the stored response; a request never stored is a cache miss. */
    function GetEntry(request: string): (r: Result<P, CacheError>)
      reads disk
      ensures r.Success? <==> GetPath(request) in disk.files
      ensures r.Success? ==> r.value == disk.files[GetPath(request)]
      ensures r.Failure? ==> r.error == CacheMiss(GetPath(request))
    {
      Load(disk.files, GetPath(request))
    }

    /** `set_entry(request, response)`: writes (or overwrites) the request's file. */
    method SetEntry(request: string, response: P)
      modifies disk
      ensures disk.files == old(disk.files)[GetPath(request) := response]
      ensures GetEntry(request) == Success(response)
    {
      disk.files := disk.files[GetPath(request) := response];
    }
  }
}
