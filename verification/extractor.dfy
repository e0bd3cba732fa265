/**
 * The rootfs extractor `unpackTarGz` (main.go:128-202).
 *
 * The gzip and tar decoders are not modelled: an archive is given already
 * decoded, as the outer stream's entries (each carrying the decoding of its
 * own content as a nested tar stream) and the way each stream ends. The
 * destination is an abstract filesystem, a map from cleaned path strings to
 * nodes, held by the `FileSystem` object whose methods stand for
 * `os.MkdirAll`, `os.Symlink` and `os.OpenFile` + `io.Copy`.
 *
 * `Policy.AsWritten` is the containment test main.go applies; `Hardened`
 * is the component-wise test with symlinks resolved against their parent
 * directory, kept beside it to state what the checks were meant to ensure.
 */
module Extractor {
  import opened Wrappers
  import opened Paths

  newtype byte = x: int | 0 <= x < 256

  /** archive/tar type flags the extractor dispatches on. */
  const TypeReg: char := '0'
  const TypeSymlink: char := '2'
  const TypeDir: char := '5'

  /** A decoded tar header with the bytes of its entry. */
  datatype Header = Header(name: string, typeflag: char, mode: int, linkname: string, content: seq<byte>)

  /** How a tar stream ends: io.EOF, or any other error from Next. */
  datatype End = Eof | Broken(reason: string)

  datatype Stream = Stream(headers: seq<Header>, end: End)

  /** An outer entry; `layer` is what a nested tar reader yields on its content. */
  datatype OuterEntry = OuterEntry(header: Header, layer: Stream)

  /** The decoded rootfs.tar.gz. A gzip header error is an outer stream with no entries that ends Broken. */
  datatype TarGz = TarGz(entries: seq<OuterEntry>, end: End)

  datatype Node = DirNode(mode: int) | FileNode(mode: int, data: seq<byte>) | LinkNode(target: string)

  type Fs = map<string, Node>

  datatype Error =
    | LayerNotFound                              // "malformed rootfs.tar.gz, layer.tar not found"
    | ReadError(reason: string)                  // an error from a tar reader's Next
    | PathOutside(target: string, dst: string)   // "file points outside of target directory"
    | LinkOutside(linkDest: string, dst: string) // "symbolic link points outside of target directory"
    | Unsupported(typeflag: char)                // "file untar not supported"
    | AlreadyExists(path: string)                // EEXIST from symlink
    | NotADirectory(path: string)                // ENOTDIR from MkdirAll
    | NoParentDir(path: string)                  // ENOENT: the parent directory is missing
    | EmptyLinkText(path: string)                // ENOENT: symlink(2) refuses an empty target
    | IsADirectory(path: string)                 // EISDIR from OpenFile
    | IsASymlink(path: string)                   // a symlink at the target of OpenFile

  datatype Policy = AsWritten | Hardened

  datatype Outcome = Outcome(err: Option<Error>, fs: Fs)

  // ----- the containment checks -----

  predicate HasSuffix(s: string, suffix: string)
  {
    |suffix| <= |s| && s[|s| - |suffix|..] == suffix
  }

  /** A symlink's target as POSIX resolves it from the link's own location. An absolute
      target is taken as it is, so the hardened check refuses every absolute link that does
      not name a path inside the destination, links to /nix/... included. */
  function ResolveLink(target: string, linkname: string): string
  {
    if Rooted(linkname) then Clean(linkname) else Join(Dir(target), linkname)
  }

  /** The path the symlink check tests: main.go joins the link text onto the entry's own path. */
  function LinkDest(policy: Policy, target: string, linkname: string): string
  {
    match policy
    case AsWritten => Join(target, linkname)
    case Hardened => ResolveLink(target, linkname)
  }

  predicate Inside(policy: Policy, p: string, dst: string)
  {
    match policy
    case AsWritten => HasPrefix(Clean(p), Clean(dst))
    case Hardened => Within(p, dst)
  }

  // ----- the filesystem calls, on the abstract filesystem -----

  /** "/", "." and paths made only of ".." are directories every filesystem has. */
  predicate Implicit(xs: seq<string>)
  {
    xs == [] || xs[|xs| - 1] == ".."
  }

  predicate IsDirAt(fs: Fs, rooted: bool, xs: seq<string>)
  {
    Implicit(xs) || (Render(rooted, xs) in fs && fs[Render(rooted, xs)].DirNode?)
  }

  /** os.MkdirAll on the path with root flag `rooted` and components `xs`. */
  function MkdirAt(fs: Fs, rooted: bool, xs: seq<string>, mode: int): Result<Fs, Error>
    decreases |xs|
  {
    if Implicit(xs) then Ok(fs)
    else
      var p := Render(rooted, xs);
      if p in fs then
        if fs[p].DirNode? then Ok(fs) else Err(NotADirectory(p))
      else
        match MkdirAt(fs, rooted, xs[..|xs| - 1], mode)
        case Err(e) => Err(e)
        case Ok(fs1) => Ok(fs1[p := DirNode(mode)])
  }

  function AfterMkdirAll(fs: Fs, path: string, mode: int): Result<Fs, Error>
  {
    MkdirAt(fs, Rooted(path), Parts(path), mode)
  }

  /** os.Symlink(oldname, newname). An empty `oldname` is refused before `newname` is looked at. */
  function AfterSymlink(fs: Fs, oldname: string, newname: string): Result<Fs, Error>
  {
    var xs := Parts(newname);
    if oldname == "" then Err(EmptyLinkText(newname))
    else if Implicit(xs) || Clean(newname) in fs then Err(AlreadyExists(newname))
    else if !IsDirAt(fs, Rooted(newname), xs[..|xs| - 1]) then Err(NoParentDir(newname))
    else Ok(fs[Clean(newname) := LinkNode(oldname)])
  }

  /** Writing `data` from offset 0 over `prev` without truncating it. */
  function Overwrite(prev: seq<byte>, data: seq<byte>): seq<byte>
  {
    if |prev| <= |data| then data else data + prev[|data|..]
  }

  /** os.OpenFile(path, O_CREATE|O_RDWR, mode) followed by io.Copy of `data`. */
  function AfterWrite(fs: Fs, path: string, mode: int, data: seq<byte>): Result<Fs, Error>
  {
    var xs, k := Parts(path), Clean(path);
    if Implicit(xs) then Err(IsADirectory(path))
    else if k in fs then
      match fs[k]
      case DirNode(_) => Err(IsADirectory(path))
      case LinkNode(_) => Err(IsASymlink(path))
      case FileNode(m, prev) => Ok(fs[k := FileNode(m, Overwrite(prev, data))])
    else if !IsDirAt(fs, Rooted(path), xs[..|xs| - 1]) then Err(NoParentDir(path))
    else Ok(fs[k := FileNode(mode, data)])
  }

  // ----- the extraction, as functions -----

  predicate IsLayer(h: Header)
  {
    h.typeflag == TypeReg && HasSuffix(h.name, "/layer.tar")
  }

  /** What the outer scan reports when its stream ends before a layer is found. */
  function EndError(end: End): Error
  {
    if end.Eof? then LayerNotFound else ReadError(end.reason)
  }

  /** The outer scan: the nested stream of the first regular `…/layer.tar` entry. */
  function FindLayer(entries: seq<OuterEntry>, end: End): Result<Stream, Error>
    decreases |entries|
  {
    if entries == [] then Err(EndError(end))
    else if IsLayer(entries[0].header) then Ok(entries[0].layer)
    else FindLayer(entries[1..], end)
  }

  /** One pass of the nested loop's body. */
  function Step(policy: Policy, dst: string, h: Header, fs: Fs): Result<Fs, Error>
  {
    var target := Join(dst, h.name);
    if !Inside(policy, target, dst) then Err(PathOutside(target, dst))
    else if h.typeflag == TypeSymlink then
      var linkDest := LinkDest(policy, target, h.linkname);
      if !Inside(policy, linkDest, dst) then Err(LinkOutside(linkDest, dst))
      else AfterSymlink(fs, h.linkname, target)
    else if h.typeflag == TypeDir then AfterMkdirAll(fs, target, h.mode)
    else if h.typeflag == TypeReg then AfterWrite(fs, target, h.mode, h.content)
    else Err(Unsupported(h.typeflag))
  }

  /** The nested loop: entries in order, stopping at the first error with what was written so far. */
  function ExtractAll(policy: Policy, dst: string, hs: seq<Header>, end: End, fs: Fs): Outcome
    decreases |hs|
  {
    if hs == [] then Outcome(if end.Eof? then None else Some(ReadError(end.reason)), fs)
    else
      match Step(policy, dst, hs[0], fs)
      case Err(e) => Outcome(Some(e), fs)
      case Ok(fs1) => ExtractAll(policy, dst, hs[1..], end, fs1)
  }

  function Unpack(policy: Policy, archive: TarGz, dst: string, fs: Fs): Outcome
  {
    match FindLayer(archive.entries, archive.end)
    case Err(e) => Outcome(Some(e), fs)
    case Ok(layer) => ExtractAll(policy, dst, layer.headers, layer.end, fs)
  }

  /** One turn of the nested loop on what remains of the stream from position j. */
  lemma ExtractAllAt(policy: Policy, dst: string, hs: seq<Header>, j: nat, end: End, fs: Fs)
    requires j < |hs|
    ensures ExtractAll(policy, dst, hs[j..], end, fs) ==
      match Step(policy, dst, hs[j], fs)
      case Err(e) => Outcome(Some(e), fs)
      case Ok(fs1) => ExtractAll(policy, dst, hs[j + 1..], end, fs1)
  {
    assert hs[j..][0] == hs[j] && hs[j..][1..] == hs[j + 1..];
  }

  // ----- the extractor, as main.go runs it -----

  /** The filesystem state after a call that returned `err`: the call's effect, or nothing on error. */
  predicate Committed(r: Result<Fs, Error>, before: Fs, err: Option<Error>, after: Fs)
  {
    match r
    case Ok(fs) => err == None && after == fs
    case Err(e) => err == Some(e) && after == before
  }

  /** The host filesystem, changed in place by the calls the extractor makes. */
  class FileSystem {
    var nodes: Fs

    constructor (initial: Fs)
      ensures nodes == initial
    {
      nodes := initial;
    }

    method Apply(r: Result<Fs, Error>) returns (err: Option<Error>)
      modifies this
      ensures Committed(r, old(nodes), err, nodes)
    {
      match r
      case Ok(fs) => nodes := fs; err := None;
      case Err(e) => err := Some(e);
    }

    /** os.MkdirAll(path, mode) */
    method MkdirAll(path: string, mode: int) returns (err: Option<Error>)
      modifies this
      ensures Committed(AfterMkdirAll(old(nodes), path, mode), old(nodes), err, nodes)
    {
      err := Apply(AfterMkdirAll(nodes, path, mode));
    }

    /** os.Symlink(oldname, newname) */
    method Symlink(oldname: string, newname: string) returns (err: Option<Error>)
      modifies this
      ensures Committed(AfterSymlink(old(nodes), oldname, newname), old(nodes), err, nodes)
    {
      err := Apply(AfterSymlink(nodes, oldname, newname));
    }

    /** os.OpenFile(path, os.O_CREATE|os.O_RDWR, mode), io.Copy of the entry's bytes, Close. */
    method CreateAndCopy(path: string, mode: int, data: seq<byte>) returns (err: Option<Error>)
      modifies this
      ensures Committed(AfterWrite(old(nodes), path, mode, data), old(nodes), err, nodes)
    {
      err := Apply(AfterWrite(nodes, path, mode, data));
    }
  }

  /** unpackTarGz: find the layer in the outer stream, then extract its entries in order. */
  method UnpackTarGz(policy: Policy, archive: TarGz, dstDir: string, fs: FileSystem) returns (err: Option<Error>)
    modifies fs
    ensures Outcome(err, fs.nodes) == Unpack(policy, archive, dstDir, old(fs.nodes))
  {
    var entries := archive.entries;
    var i := 0;
    while i < |entries| && !IsLayer(entries[i].header)
      invariant 0 <= i <= |entries|
      invariant FindLayer(entries[i..], archive.end) == FindLayer(entries, archive.end)
    {
      i := i + 1;
    }
    if i == |entries| {
      return Some(EndError(archive.end));
    }
    var layer := entries[i].layer;

    var headers := layer.headers;
    var j := 0;
    while j < |headers|
      invariant 0 <= j <= |headers|
      invariant ExtractAll(policy, dstDir, headers[j..], layer.end, fs.nodes) == Unpack(policy, archive, dstDir, old(fs.nodes))
    {
      ExtractAllAt(policy, dstDir, headers, j, layer.end, fs.nodes);
      var header := headers[j];
      var targetPath := Join(dstDir, header.name);
      if !Inside(policy, targetPath, dstDir) {
        return Some(PathOutside(targetPath, dstDir));
      }
      if header.typeflag == TypeSymlink {
        var linkDest := LinkDest(policy, targetPath, header.linkname);
        if !Inside(policy, linkDest, dstDir) {
          return Some(LinkOutside(linkDest, dstDir));
        }
        err := fs.Symlink(header.linkname, targetPath);
      } else if header.typeflag == TypeDir {
        err := fs.MkdirAll(targetPath, header.mode);
      } else if header.typeflag == TypeReg {
        err := fs.CreateAndCopy(targetPath, header.mode, header.content);
      } else {
        return Some(Unsupported(header.typeflag));
      }
      if err.Some? {
        return err;
      }
      j := j + 1;
    }
    if layer.end.Broken? {
      return Some(ReadError(layer.end.reason));
    }
    return None;
  }
}
