/**
 * What `unpackTarGz` guarantees, stated over the functions of module
 * Extractor that its loops are proved to follow.
 */
module ExtractionFacts {
  import opened Wrappers
  import opened Paths
  import opened Extractor

  // ----- the outer scan -----

  /** The scan skips every entry that is not a regular `…/layer.tar` file and takes the first that is. */
  lemma {:induction false} FindLayerTakesFirst(entries: seq<OuterEntry>, end: End, i: nat)
    requires i < |entries| && IsLayer(entries[i].header)
    requires forall j | 0 <= j < i :: !IsLayer(entries[j].header)
    ensures FindLayer(entries, end) == Ok(entries[i].layer)
    decreases i
  {
    if i > 0 {
      assert !IsLayer(entries[0].header);
      FindLayerTakesFirst(entries[1..], end, i - 1);
    }
  }

  /** Without a layer entry the scan fails with what ended the outer stream. */
  lemma {:induction false} FindLayerWithoutLayer(entries: seq<OuterEntry>, end: End)
    requires forall j | 0 <= j < |entries| :: !IsLayer(entries[j].header)
    ensures FindLayer(entries, end) == Err(EndError(end))
    decreases |entries|
  {
    if entries != [] {
      assert !IsLayer(entries[0].header);
      FindLayerWithoutLayer(entries[1..], end);
    }
  }

  /** An archive without a layer reports "layer.tar not found" at EOF and writes nothing. */
  lemma UnpackWithoutLayer(policy: Policy, archive: TarGz, dst: string, fs: Fs)
    requires forall j | 0 <= j < |archive.entries| :: !IsLayer(archive.entries[j].header)
    ensures Unpack(policy, archive, dst, fs).fs == fs
    ensures archive.end == Eof ==> Unpack(policy, archive, dst, fs).err == Some(LayerNotFound)
    ensures archive.end.Broken? ==> Unpack(policy, archive, dst, fs).err == Some(ReadError(archive.end.reason))
  {
    FindLayerWithoutLayer(archive.entries, archive.end);
  }

  /** Extraction reads the nested stream of the first layer entry and no other. */
  lemma UnpackUsesFirstLayer(policy: Policy, archive: TarGz, dst: string, fs: Fs, i: nat)
    requires i < |archive.entries| && IsLayer(archive.entries[i].header)
    requires forall j | 0 <= j < i :: !IsLayer(archive.entries[j].header)
    ensures var layer := archive.entries[i].layer;
      Unpack(policy, archive, dst, fs) == ExtractAll(policy, dst, layer.headers, layer.end, fs)
  {
    FindLayerTakesFirst(archive.entries, archive.end, i);
  }

  // ----- the nested loop: order and abort on the first error -----

  /** Entries are applied in stream order: a clean run over the first k entries hands its
      filesystem to the rest. */
  lemma {:induction false} ExtractAllSplit(policy: Policy, dst: string, hs: seq<Header>, k: nat, end: End, fs: Fs, fsk: Fs)
    requires k <= |hs|
    requires ExtractAll(policy, dst, hs[..k], Eof, fs) == Outcome(None, fsk)
    ensures ExtractAll(policy, dst, hs, end, fs) == ExtractAll(policy, dst, hs[k..], end, fsk)
    decreases k
  {
    if k > 0 {
      assert hs[..k][0] == hs[0];
      assert hs[..k][1..] == hs[1..][..k - 1];
      match Step(policy, dst, hs[0], fs)
      case Ok(fs1) =>
        ExtractAllSplit(policy, dst, hs[1..], k - 1, end, fs1, fsk);
        assert hs[1..][k - 1..] == hs[k..];
      case Err(e) =>
        assert false;
    }
  }

  /** The first entry that fails ends extraction with its error; what the entries before it
      wrote stays, nothing after it is written, and nothing is rolled back. */
  lemma FirstErrorAborts(policy: Policy, dst: string, hs: seq<Header>, k: nat, end: End, fs: Fs, fsk: Fs, e: Error)
    requires k < |hs|
    requires ExtractAll(policy, dst, hs[..k], Eof, fs) == Outcome(None, fsk)
    requires Step(policy, dst, hs[k], fsk) == Err(e)
    ensures ExtractAll(policy, dst, hs, end, fs) == Outcome(Some(e), fsk)
  {
    ExtractAllSplit(policy, dst, hs, k, end, fs, fsk);
    assert hs[k..][0] == hs[k];
  }

  /** An entry whose joined path fails the containment check aborts with PathOutside,
      whatever its type. */
  lemma EscapeAborts(policy: Policy, dst: string, hs: seq<Header>, k: nat, end: End, fs: Fs, fsk: Fs)
    requires k < |hs|
    requires ExtractAll(policy, dst, hs[..k], Eof, fs) == Outcome(None, fsk)
    requires !Inside(policy, Join(dst, hs[k].name), dst)
    ensures ExtractAll(policy, dst, hs, end, fs) == Outcome(Some(PathOutside(Join(dst, hs[k].name), dst)), fsk)
  {
    FirstErrorAborts(policy, dst, hs, k, end, fs, fsk, PathOutside(Join(dst, hs[k].name), dst));
  }

  /** Hard links, devices, FIFOs and every other type abort with "untar not supported". */
  lemma UnsupportedAborts(policy: Policy, dst: string, hs: seq<Header>, k: nat, end: End, fs: Fs, fsk: Fs)
    requires k < |hs|
    requires ExtractAll(policy, dst, hs[..k], Eof, fs) == Outcome(None, fsk)
    requires hs[k].typeflag !in {TypeReg, TypeDir, TypeSymlink}
    requires Inside(policy, Join(dst, hs[k].name), dst)
    ensures ExtractAll(policy, dst, hs, end, fs) == Outcome(Some(Unsupported(hs[k].typeflag)), fsk)
  {
    FirstErrorAborts(policy, dst, hs, k, end, fs, fsk, Unsupported(hs[k].typeflag));
  }

  /** A stream whose every entry extracts ends without error exactly when it ends at EOF. */
  lemma {:induction false} CleanRunEndsAtEof(policy: Policy, dst: string, hs: seq<Header>, end: End, fs: Fs, fsn: Fs)
    requires ExtractAll(policy, dst, hs, Eof, fs) == Outcome(None, fsn)
    ensures ExtractAll(policy, dst, hs, end, fs) ==
      Outcome(if end.Eof? then None else Some(ReadError(end.reason)), fsn)
    decreases |hs|
  {
    if hs != [] {
      match Step(policy, dst, hs[0], fs)
      case Ok(fs1) => CleanRunEndsAtEof(policy, dst, hs[1..], end, fs1, fsn);
      case Err(e) => assert false;
    }
  }

  // ----- one entry of each type -----

  /** A symlink is created only when both checks pass and the link text is not empty, at a
      free path under a directory, and it stores the raw link text. */
  lemma SymlinkStep(policy: Policy, dst: string, h: Header, fs: Fs)
    requires h.typeflag == TypeSymlink
    ensures var t := Join(dst, h.name);
      var xs := Parts(t);
      Step(policy, dst, h, fs).Ok? <==>
        Inside(policy, t, dst) && Inside(policy, LinkDest(policy, t, h.linkname), dst) &&
        h.linkname != "" && !Implicit(xs) && Clean(t) !in fs && IsDirAt(fs, Rooted(t), xs[..|xs| - 1])
    ensures Step(policy, dst, h, fs).Ok? ==>
      Step(policy, dst, h, fs).value == fs[Clean(Join(dst, h.name)) := LinkNode(h.linkname)]
    ensures var t := Join(dst, h.name);
      var d := LinkDest(policy, t, h.linkname);
      Inside(policy, t, dst) && !Inside(policy, d, dst) ==> Step(policy, dst, h, fs) == Err(LinkOutside(d, dst))
  {
  }

  /** A symlink entry whose link check fails aborts with LinkOutside; nothing of it is written. */
  lemma LinkEscapeAborts(policy: Policy, dst: string, hs: seq<Header>, k: nat, end: End, fs: Fs, fsk: Fs)
    requires k < |hs| && hs[k].typeflag == TypeSymlink
    requires ExtractAll(policy, dst, hs[..k], Eof, fs) == Outcome(None, fsk)
    requires Inside(policy, Join(dst, hs[k].name), dst)
    requires !Inside(policy, LinkDest(policy, Join(dst, hs[k].name), hs[k].linkname), dst)
    ensures var d := LinkDest(policy, Join(dst, hs[k].name), hs[k].linkname);
      ExtractAll(policy, dst, hs, end, fs) == Outcome(Some(LinkOutside(d, dst)), fsk)
  {
    var d := LinkDest(policy, Join(dst, hs[k].name), hs[k].linkname);
    FirstErrorAborts(policy, dst, hs, k, end, fs, fsk, LinkOutside(d, dst));
  }

  /** What os.MkdirAll does: the path ends up a directory, nothing already present changes,
      and everything it adds is a directory with the given mode on the way to the path. */
  lemma {:induction false} MkdirAtEffect(fs: Fs, r: bool, xs: seq<string>, mode: int)
    ensures MkdirAt(fs, r, xs, mode).Ok? ==>
      var fs' := MkdirAt(fs, r, xs, mode).value;
      && IsDirAt(fs', r, xs)
      && (forall k | k in fs :: k in fs' && fs'[k] == fs[k])
      && (forall k | k in fs' && k !in fs :: fs'[k] == DirNode(mode))
    ensures MkdirAt(fs, r, xs, mode).Err? ==>
      exists j | 1 <= j <= |xs| :: Render(r, xs[..j]) in fs && !fs[Render(r, xs[..j])].DirNode?
    decreases |xs|
  {
    if !Implicit(xs) {
      var p := Render(r, xs);
      if p in fs {
        assert xs[..|xs|] == xs;
      } else {
        var up := xs[..|xs| - 1];
        MkdirAtEffect(fs, r, up, mode);
        if MkdirAt(fs, r, up, mode).Err? {
          var j :| 1 <= j <= |up| && Render(r, up[..j]) in fs && !fs[Render(r, up[..j])].DirNode?;
          assert up[..j] == xs[..j];
        }
      }
    }
  }

  /** MkdirAll fails only when some component on the path exists and is not a directory. */
  lemma {:induction false} MkdirAtSucceeds(fs: Fs, r: bool, xs: seq<string>, mode: int)
    requires forall j | 1 <= j <= |xs| :: Render(r, xs[..j]) in fs ==> fs[Render(r, xs[..j])].DirNode?
    ensures MkdirAt(fs, r, xs, mode).Ok?
    decreases |xs|
  {
    assert xs[..|xs|] == xs;
    if !Implicit(xs) && Render(r, xs) !in fs {
      var up := xs[..|xs| - 1];
      forall j | 1 <= j <= |up| && Render(r, up[..j]) in fs
        ensures fs[Render(r, up[..j])].DirNode?
      {
        assert up[..j] == xs[..j];
      }
      MkdirAtSucceeds(fs, r, up, mode);
    }
  }

  /** os.MkdirAll creates the missing ancestors: on a normal path, every ancestor that lies
      below the deepest one already present is a directory afterwards. */
  lemma {:induction false} MkdirAtAncestors(fs: Fs, r: bool, xs: seq<string>, mode: int)
    requires Normal(r, xs)
    ensures MkdirAt(fs, r, xs, mode).Ok? ==>
      forall j | 0 <= j <= |xs| && (forall i | j <= i <= |xs| :: Render(r, xs[..i]) !in fs) ::
        IsDirAt(MkdirAt(fs, r, xs, mode).value, r, xs[..j])
    decreases |xs|
  {
    if MkdirAt(fs, r, xs, mode).Ok? {
      var fs' := MkdirAt(fs, r, xs, mode).value;
      forall j | 0 <= j <= |xs| && (forall i | j <= i <= |xs| :: Render(r, xs[..i]) !in fs)
        ensures IsDirAt(fs', r, xs[..j])
      {
        assert xs[..|xs|] == xs;
        if Implicit(xs) {
          // a normal list ending in ".." is made of ".." only
          assert xs == [] || forall i | 0 <= i < |xs| :: xs[i] == "..";
          assert Implicit(xs[..j]);
        } else if j < |xs| {
          var up := xs[..|xs| - 1];
          assert Normal(r, up);
          MkdirAtAncestors(fs, r, up, mode);
          assert up[..j] == xs[..j];
          assert forall i | j <= i <= |up| :: up[..i] == xs[..i];
        }
      }
    }
  }

  /** A directory entry leaves a directory at its path, with the missing ancestors created;
      what it adds are directories with the entry's mode, and nothing present before is changed. */
  lemma DirStep(policy: Policy, dst: string, h: Header, fs: Fs)
    requires h.typeflag == TypeDir
    requires Step(policy, dst, h, fs).Ok?
    ensures var t := Join(dst, h.name);
      var fs' := Step(policy, dst, h, fs).value;
      && Inside(policy, t, dst)
      && IsDirAt(fs', Rooted(t), Parts(t))
      && (forall k | k in fs :: k in fs' && fs'[k] == fs[k])
      && (forall k | k in fs' && k !in fs :: fs'[k] == DirNode(h.mode))
    ensures var t := Join(dst, h.name);
      var xs := Parts(t);
      forall j | 0 <= j <= |xs| && (forall i | j <= i <= |xs| :: Render(Rooted(t), xs[..i]) !in fs) ::
        IsDirAt(Step(policy, dst, h, fs).value, Rooted(t), xs[..j])
  {
    var t := Join(dst, h.name);
    MkdirAtEffect(fs, Rooted(t), Parts(t), h.mode);
    PartsNormal(t);
    MkdirAtAncestors(fs, Rooted(t), Parts(t), h.mode);
  }

  /** Bytes written from offset 0 without truncation: the entry's bytes, then whatever was
      beyond them. */
  lemma OverwriteContents(prev: seq<byte>, data: seq<byte>)
    ensures var r := Overwrite(prev, data);
      && |r| == (if |prev| <= |data| then |data| else |prev|)
      && r[..|data|] == data
      && r[|data|..] == (if |prev| <= |data| then [] else prev[|data|..])
  {
  }

  /** A regular entry at a free path under a directory yields exactly its bytes and mode;
      over an existing file it keeps the old mode and overwrites without truncating. */
  lemma RegularStep(policy: Policy, dst: string, h: Header, fs: Fs)
    requires h.typeflag == TypeReg
    requires Inside(policy, Join(dst, h.name), dst)
    ensures var t := Join(dst, h.name);
      var xs := Parts(t);
      !Implicit(xs) && Clean(t) !in fs && IsDirAt(fs, Rooted(t), xs[..|xs| - 1]) ==>
        Step(policy, dst, h, fs) == Ok(fs[Clean(t) := FileNode(h.mode, h.content)])
    ensures var t := Join(dst, h.name);
      !Implicit(Parts(t)) && Clean(t) in fs && fs[Clean(t)].FileNode? ==>
        Step(policy, dst, h, fs) ==
          Ok(fs[Clean(t) := FileNode(fs[Clean(t)].mode, Overwrite(fs[Clean(t)].data, h.content))])
  {
  }
}
