/**
 * The containment checks of `unpackTarGz` (main.go:164-176): which names
 * they let through, what slips past them as main.go writes them, and what
 * the component-wise checks of `Policy.Hardened` guarantee instead.
 */
module Containment {
  import opened Wrappers
  import opened Paths
  import opened Extractor
  import opened ExtractionFacts

  // ----- names both checks accept -----

  /** A name with no ".." segment always passes the entry check, under either policy,
      for any destination other than "" or the relative ".". */
  lemma NamesWithoutDotDotPass(policy: Policy, dst: string, name: string)
    requires dst != ""
    requires Rooted(dst) || Parts(dst) != []
    requires forall i | 0 <= i < |Segments(name)| :: Segments(name)[i] != ".."
    ensures Inside(policy, Join(dst, name), dst)
  {
    JoinStaysWithin(dst, name);
    WithinImpliesPrefix(Join(dst, name), dst);
  }

  /** The component-wise test is the stricter one: whatever it accepts, main.go's accepts. */
  lemma HardenedIsStricter(p: string, dst: string)
    requires Rooted(dst) || Parts(dst) != []
    requires Inside(Hardened, p, dst)
    ensures Inside(AsWritten, p, dst)
  {
    WithinImpliesPrefix(p, dst);
  }

  // ----- what the hardened checks guarantee -----

  /** Going from `before` to `after`, no path is removed, no directory is replaced, and every
      path added or changed lies within `dst`, as does the target of every symlink added. */
  ghost predicate Confined(dst: string, before: Fs, after: Fs)
  {
    && (forall k | k in before :: k in after && (before[k].DirNode? ==> after[k] == before[k]))
    && (forall k | k in after && (k !in before || after[k] != before[k]) ::
          Within(k, dst) && (after[k].LinkNode? ==> Within(ResolveLink(k, after[k].target), dst)))
  }

  lemma ConfinedTrans(dst: string, a: Fs, b: Fs, c: Fs)
    requires Confined(dst, a, b) && Confined(dst, b, c)
    ensures Confined(dst, a, c)
  {
    forall k | k in c && (k !in a || c[k] != a[k])
      ensures Within(k, dst) && (c[k].LinkNode? ==> Within(ResolveLink(k, c[k].target), dst))
    {
      if k in b && c[k] == b[k] {
        assert k !in a || b[k] != a[k];
      }
    }
  }

  /** The directories os.MkdirAll adds lie on the path, below an existing directory at depth m. */
  lemma {:induction false} MkdirAtAddsBelow(fs: Fs, r: bool, xs: seq<string>, mode: int, m: nat)
    requires m <= |xs| && IsDirAt(fs, r, xs[..m])
    requires MkdirAt(fs, r, xs, mode).Ok?
    ensures forall k | k in MkdirAt(fs, r, xs, mode).value && k !in fs ::
      exists j | m < j <= |xs| :: k == Render(r, xs[..j])
    decreases |xs|
  {
    assert xs[..|xs|] == xs;
    if !Implicit(xs) && Render(r, xs) !in fs {
      var up := xs[..|xs| - 1];
      assert m < |xs|;
      assert up[..m] == xs[..m];
      MkdirAtAddsBelow(fs, r, up, mode, m);
      var fs1 := MkdirAt(fs, r, up, mode).value;
      forall k | k in MkdirAt(fs, r, xs, mode).value && k !in fs
        ensures exists j | m < j <= |xs| :: k == Render(r, xs[..j])
      {
        if k == Render(r, xs) {
          assert xs[..|xs|] == xs;
        } else {
          assert k in fs1;
          var j :| m < j <= |up| && k == Render(r, up[..j]);
          assert up[..j] == xs[..j];
        }
      }
    }
  }

  /** A prefix of a normal component list is normal. */
  lemma NormalPrefix(r: bool, xs: seq<string>, j: nat)
    requires Normal(r, xs) && j <= |xs|
    ensures Normal(r, xs[..j])
  {
  }

  /** A directory entry under the hardened checks adds directories within `dst` only. */
  lemma HardenedDirConfined(dst: string, h: Header, fs: Fs)
    requires IsDirAt(fs, Rooted(dst), Parts(dst))
    requires h.typeflag == TypeDir
    requires Step(Hardened, dst, h, fs).Ok?
    ensures Confined(dst, fs, Step(Hardened, dst, h, fs).value)
  {
    var t := Join(dst, h.name);
    var r, xs := Rooted(t), Parts(t);
    var ds := Parts(dst);
    assert Within(t, dst);
    var fs' := MkdirAt(fs, r, xs, h.mode).value;
    assert fs' == Step(Hardened, dst, h, fs).value;
    MkdirAtEffect(fs, r, xs, h.mode);
    assert xs[..|ds|] == ds;
    MkdirAtAddsBelow(fs, r, xs, h.mode, |ds|);
    PartsNormal(t);
    forall k | k in fs' && k !in fs
      ensures Within(k, dst)
    {
      var j :| |ds| < j <= |xs| && k == Render(r, xs[..j]);
      NormalPrefix(r, xs, j);
      RenderParts(r, xs[..j]);
      assert ds <= xs[..j];
    }
  }

  /** Symlinking a free path within `dst` to a target within `dst` stays confined. */
  lemma SymlinkConfined(dst: string, fs: Fs, linkname: string, t: string)
    requires Within(Clean(t), dst) && Within(ResolveLink(Clean(t), linkname), dst)
    requires AfterSymlink(fs, linkname, t).Ok?
    ensures Confined(dst, fs, AfterSymlink(fs, linkname, t).value)
  {
    var fs' := AfterSymlink(fs, linkname, t).value;
    assert Clean(t) !in fs && fs' == fs[Clean(t) := LinkNode(linkname)];
  }

  /** Writing a file at a path within `dst` stays confined. */
  lemma WriteConfined(dst: string, fs: Fs, t: string, mode: int, data: seq<byte>)
    requires Within(Clean(t), dst)
    requires AfterWrite(fs, t, mode, data).Ok?
    ensures Confined(dst, fs, AfterWrite(fs, t, mode, data).value)
  {
    var fs' := AfterWrite(fs, t, mode, data).value;
    var k := Clean(t);
    assert k !in fs || fs[k].FileNode?;
    assert fs'[k].FileNode? && fs' == fs[k := fs'[k]];
  }

  /** A symlink or regular entry under the hardened checks changes only its own path, within `dst`. */
  lemma HardenedLeafConfined(dst: string, h: Header, fs: Fs)
    requires h.typeflag != TypeDir
    requires Step(Hardened, dst, h, fs).Ok?
    ensures Confined(dst, fs, Step(Hardened, dst, h, fs).value)
  {
    var t := Join(dst, h.name);
    assert Within(t, dst);
    CleanIdempotent(t);
    WithinClean(t, dst);
    if h.typeflag == TypeSymlink {
      assert Within(ResolveLink(t, h.linkname), dst);
      assert Dir(Clean(t)) == Dir(t);
      SymlinkConfined(dst, fs, h.linkname, t);
    } else {
      WriteConfined(dst, fs, t, h.mode, h.content);
    }
  }

  /** The hardened extraction writes only within `dst` and creates only symlinks whose
      targets lie within `dst`, whatever the archive holds and however it ends. */
  lemma {:induction false} HardenedConfined(dst: string, hs: seq<Header>, end: End, fs: Fs)
    requires IsDirAt(fs, Rooted(dst), Parts(dst))
    ensures Confined(dst, fs, ExtractAll(Hardened, dst, hs, end, fs).fs)
    decreases |hs|
  {
    if hs != [] {
      match Step(Hardened, dst, hs[0], fs)
      case Err(e) =>
      case Ok(fs1) =>
        if hs[0].typeflag == TypeDir {
          HardenedDirConfined(dst, hs[0], fs);
        } else {
          HardenedLeafConfined(dst, hs[0], fs);
        }
        assert IsDirAt(fs1, Rooted(dst), Parts(dst));
        HardenedConfined(dst, hs[1..], end, fs1);
        ConfinedTrans(dst, fs, fs1, ExtractAll(Hardened, dst, hs[1..], end, fs1).fs);
    }
  }

  /** The same for the whole archive. */
  lemma HardenedUnpackConfined(archive: TarGz, dst: string, fs: Fs)
    requires IsDirAt(fs, Rooted(dst), Parts(dst))
    ensures Confined(dst, fs, Unpack(Hardened, archive, dst, fs).fs)
  {
    match FindLayer(archive.entries, archive.end)
    case Err(e) =>
    case Ok(layer) => HardenedConfined(dst, layer.headers, layer.end, fs);
  }

  // ----- what main.go's checks let through -----

  // The examples below take their literal paths and entries as parameters fixed by `requires`
  // rather than writing the literals into the statement: that keeps the verifier from unfolding
  // Segments and Reduce on every literal it meets. The path facts come from the small lemmas
  // OnePart .. FourParts, which fold a fixed number of normal components.

  /** A rooted path written out from slash-free segments `xs`, and what Clean makes of it. */
  lemma Written(s: string, xs: seq<string>, ys: seq<string>, out: string)
    requires xs != [] && forall i | 0 <= i < |xs| :: '/' !in xs[i]
    requires s == "/" + JoinParts(xs) && Reduce(true, [], xs) == ys && out == "/" + JoinParts(ys)
    ensures Rooted(s) && Parts(s) == ys && Clean(s) == out
  {
    assert s[1..] == JoinParts(xs);
    SegmentsJoinParts(xs);
    assert Segments(s) == [""] + xs;
  }

  /** A clean absolute path of one component. */
  lemma OnePart(s: string, x: string)
    requires NormalPart(x) && x != ".." && s == "/" + x
    ensures Rooted(s) && Parts(s) == [x] && Clean(s) == s
  {
    assert JoinParts([x]) == x;
    assert Push(true, [], x) == [x];
    assert Reduce(true, [x], []) == [x];
    Written(s, [x], [x], s);
  }

  /** A clean absolute path of two components. */
  lemma TwoParts(s: string, x: string, y: string)
    requires NormalPart(x) && NormalPart(y) && x != ".." && y != ".."
    requires s == "/" + x + "/" + y
    ensures Rooted(s) && Parts(s) == [x, y] && Clean(s) == s
  {
    assert JoinParts([x, y]) == x + "/" + y;
    assert s == "/" + JoinParts([x, y]);
    assert Push(true, [], x) == [x];
    assert Push(true, [x], y) == [x, y];
    assert [x, y][1..] == [y] && [y][1..] == [];
    assert Reduce(true, [x], [y]) == [x, y];
    Written(s, [x, y], [x, y], s);
  }

  /** filepath.HasPrefix passes a sibling that shares the destination's name as a prefix:
      with destination /tmp/rootfs1, the directory entry "../rootfs12" creates /tmp/rootfs12,
      outside the destination, while the hardened check refuses it. */
  lemma SiblingPrefixEscape(dst: string, h: Header, fs: Fs, t: string)
    requires dst == "/tmp/rootfs1" && h == Header("../rootfs12", TypeDir, 493, "", [])
    requires fs == map["/tmp" := DirNode(1023), dst := DirNode(448)]
    requires t == "/tmp/rootfs12"
    ensures Join(dst, h.name) == t && !Within(t, dst)
    ensures ExtractAll(AsWritten, dst, [h], Eof, fs) == Outcome(None, fs[t := DirNode(493)])
    ensures ExtractAll(Hardened, dst, [h], Eof, fs) == Outcome(Some(PathOutside(t, dst)), fs)
  {
    SiblingPaths(dst, h.name, t, "tmp", "rootfs1", "rootfs12");
    var ts := ["tmp", "rootfs12"];
    assert Render(true, ["tmp"]) == "/tmp";
    assert MkdirAt(fs, true, ["tmp"], 493) == Ok(fs);
    assert ts[..1] == ["tmp"];
    assert Render(true, ts) == t;
    assert MkdirAt(fs, true, ts, 493) == Ok(fs[t := DirNode(493)]);
    assert AfterMkdirAll(fs, t, h.mode) == Ok(fs[t := DirNode(493)]);
    assert Step(AsWritten, dst, h, fs) == Ok(fs[t := DirNode(493)]);
    assert Step(Hardened, dst, h, fs) == Err(PathOutside(t, dst));
  }

  /** The paths of the sibling example, for a destination /x/y and a sibling /x/z whose name
      starts with y. */
  lemma SiblingPaths(dst: string, name: string, t: string, x: string, y: string, z: string)
    requires NormalPart(x) && NormalPart(y) && NormalPart(z) && x != ".." && y != ".." && z != ".."
    requires y < z
    requires dst == "/" + x + "/" + y && name == "../" + z && t == "/" + x + "/" + z
    ensures Join(dst, name) == t && Inside(AsWritten, t, dst) && !Within(t, dst)
    ensures Rooted(t) && Parts(t) == [x, z]
  {
    TwoParts(dst, x, y);
    assert [x, y][..1] == [x];
    assert JoinParts([x]) == x;
    assert Dir(dst) == "/" + x;
    JoinUp(dst, z);
    TwoParts(t, x, z);
    assert Join(dst, name) == Join("/" + x, z) == Clean(t) == t;
    assert HasPrefix(t, dst) by {
      assert dst == ("/" + x + "/") + y && t == ("/" + x + "/") + z;
    }
    assert !Within(t, dst) by {
      assert [x, z][1] != [x, y][1];
    }
  }

  /** A clean absolute path of three components. */
  lemma ThreeParts(s: string, x: string, y: string, z: string)
    requires NormalPart(x) && NormalPart(y) && NormalPart(z) && x != ".." && y != ".." && z != ".."
    requires s == "/" + x + "/" + y + "/" + z
    ensures Rooted(s) && Parts(s) == [x, y, z] && Clean(s) == s
  {
    assert [x, y, z][1..] == [y, z] && [y, z][1..] == [z];
    assert JoinParts([y, z]) == y + "/" + JoinParts([z]);
    assert JoinParts([x, y, z]) == x + "/" + JoinParts([y, z]);
    assert JoinParts([x, y, z]) == x + "/" + y + "/" + z;
    assert s == "/" + JoinParts([x, y, z]);
    ReduceOfNormal(true, [], [x, y, z]);
    assert [] + [x, y, z] == [x, y, z];
    Written(s, [x, y, z], [x, y, z], s);
  }

  /** The entry path /tmp/r/a below /tmp/r, shared by both link examples. */
  lemma LinkEntryPath(dst: string, t: string)
    requires dst == "/tmp/r" && t == "/tmp/r/a"
    ensures Join(dst, "a") == t && Within(t, dst) && Dir(t) == dst
    ensures Clean(dst) == dst && Parts(dst) == ["tmp", "r"] && Rooted(dst) && Render(true, ["tmp", "r"]) == dst
    ensures Clean(t) == t && Parts(t) == ["tmp", "r", "a"] && Rooted(t)
  {
    TwoParts(dst, "tmp", "r");
    ThreeParts(t, "tmp", "r", "a");
    assert dst + "/" + "a" == t;
    assert ["tmp", "r", "a"][..2] == ["tmp", "r"];
    assert JoinParts(["tmp", "r"]) == "tmp/r";
  }

  /** The paths of the relative-link example. */
  lemma RelativeLinkPaths(dst: string, t: string, link: string, seen: string, actual: string)
    requires dst == "/tmp/r" && t == "/tmp/r/a" && link == "../x"
    requires seen == "/tmp/r/x" && actual == "/tmp/x"
    ensures Join(t, link) == seen && Clean(seen) == seen && HasPrefix(seen, dst) && Within(seen, dst)
    ensures ResolveLink(t, link) == actual && !Within(actual, dst)
  {
    LinkEntryPath(dst, t);
    JoinUp(t, "x");
    assert dst + "/" + "x" == seen;
    ThreeParts(seen, "tmp", "r", "x");
    assert link == "../" + "x";
    assert Join(t, link) == Join(dst, "x") == Clean(seen) == seen;
    assert ["tmp", "r", "x"][..2] == ["tmp", "r"];
    assert ["tmp", "r"][..1] == ["tmp"] && Dir(dst) == "/tmp";
    JoinUp(dst, "x");
    assert "/tmp" + "/" + "x" == actual;
    TwoParts(actual, "tmp", "x");
    assert ResolveLink(t, link) == Join(dst, link) == Join("/tmp", "x") == Clean(actual) == actual;
    assert !Within(actual, dst) by {
      assert ["tmp", "x"][1] != ["tmp", "r"][1];
    }
  }

  /** main.go resolves a relative link text from the entry's own path instead of from its
      directory: the link /tmp/r/a -> ../x passes as /tmp/r/x, but points at /tmp/x. */
  lemma RelativeLinkEscape(dst: string, h: Header, fs: Fs, t: string, seen: string, actual: string)
    requires dst == "/tmp/r" && h == Header("a", TypeSymlink, 511, "../x", [])
    requires fs == map[dst := DirNode(448)] && t == "/tmp/r/a"
    requires seen == "/tmp/r/x" && actual == "/tmp/x"
    ensures Join(dst, h.name) == t
    ensures LinkDest(AsWritten, t, h.linkname) == seen && Within(seen, dst)
    ensures ResolveLink(t, h.linkname) == actual && !Within(actual, dst)
    ensures ExtractAll(AsWritten, dst, [h], Eof, fs) == Outcome(None, fs[t := LinkNode(h.linkname)])
    ensures ExtractAll(Hardened, dst, [h], Eof, fs) == Outcome(Some(LinkOutside(actual, dst)), fs)
  {
    LinkEntryPath(dst, t);
    RelativeLinkPaths(dst, t, h.linkname, seen, actual);
    assert ["tmp", "r", "a"][..2] == ["tmp", "r"];
    assert AfterSymlink(fs, h.linkname, t) == Ok(fs[t := LinkNode(h.linkname)]);
    assert Join(dst, h.name) == t && Inside(AsWritten, t, dst) && Inside(AsWritten, seen, dst);
    assert Step(AsWritten, dst, h, fs) == Ok(fs[t := LinkNode(h.linkname)]);
    assert Step(Hardened, dst, h, fs) == Err(LinkOutside(actual, dst));
  }

  /** A clean absolute path of four components. */
  lemma FourParts(s: string, x: string, y: string, z: string, w: string)
    requires NormalPart(x) && NormalPart(y) && NormalPart(z) && NormalPart(w)
    requires x != ".." && y != ".." && z != ".." && w != ".."
    requires s == "/" + x + "/" + y + "/" + z + "/" + w
    ensures Rooted(s) && Parts(s) == [x, y, z, w] && Clean(s) == s
  {
    assert [x, y, z, w][1..] == [y, z, w] && [y, z, w][1..] == [z, w] && [z, w][1..] == [w];
    assert JoinParts([z, w]) == z + "/" + JoinParts([w]);
    assert JoinParts([y, z, w]) == y + "/" + JoinParts([z, w]);
    assert JoinParts([x, y, z, w]) == x + "/" + JoinParts([y, z, w]);
    assert JoinParts([x, y, z, w]) == x + "/" + y + "/" + z + "/" + w;
    assert s == "/" + JoinParts([x, y, z, w]);
    ReduceOfNormal(true, [], [x, y, z, w]);
    assert [] + [x, y, z, w] == [x, y, z, w];
    Written(s, [x, y, z, w], [x, y, z, w], s);
  }

  /** The paths of the absolute-link example. */
  lemma AbsoluteLinkPaths(dst: string, t: string, link: string, seen: string)
    requires dst == "/tmp/r" && t == "/tmp/r/a" && link == "/etc" && seen == "/tmp/r/a/etc"
    ensures Join(t, link) == seen && Clean(seen) == seen && HasPrefix(seen, dst) && Within(seen, dst)
    ensures ResolveLink(t, link) == link && !Within(link, dst)
  {
    TwoParts(dst, "tmp", "r");
    JoinAbsoluteName(t, "etc");
    assert t + "/" + "etc" == seen;
    FourParts(seen, "tmp", "r", "a", "etc");
    assert ["tmp", "r", "a", "etc"][..2] == ["tmp", "r"];
    OnePart(link, "etc");
  }

  /** main.go joins an absolute link text onto the entry's path as one more segment: the link
      /tmp/r/a -> /etc passes as /tmp/r/a/etc. */
  lemma AbsoluteLinkEscape(dst: string, h: Header, fs: Fs, t: string, seen: string)
    requires dst == "/tmp/r" && h == Header("a", TypeSymlink, 511, "/etc", [])
    requires fs == map[dst := DirNode(448)] && t == "/tmp/r/a" && seen == "/tmp/r/a/etc"
    ensures Join(dst, h.name) == t
    ensures LinkDest(AsWritten, t, h.linkname) == seen && Within(seen, dst)
    ensures ResolveLink(t, h.linkname) == h.linkname && !Within(h.linkname, dst)
    ensures ExtractAll(AsWritten, dst, [h], Eof, fs) == Outcome(None, fs[t := LinkNode(h.linkname)])
    ensures ExtractAll(Hardened, dst, [h], Eof, fs) == Outcome(Some(LinkOutside(h.linkname, dst)), fs)
  {
    LinkEntryPath(dst, t);
    AbsoluteLinkPaths(dst, t, h.linkname, seen);
    assert ["tmp", "r", "a"][..2] == ["tmp", "r"];
    assert AfterSymlink(fs, h.linkname, t) == Ok(fs[t := LinkNode(h.linkname)]);
    assert Step(AsWritten, dst, h, fs) == Ok(fs[t := LinkNode(h.linkname)]);
    assert Step(Hardened, dst, h, fs) == Err(LinkOutside(h.linkname, dst));
  }

  /** The link of RelativeLinkEscape followed by a regular entry of the same name: main.go's
      check passes the second entry too, and the file it opens is that link, whose target is
      /tmp/x outside the destination. The hardened check stops at the link. */
  lemma LinkThenWrite(dst: string, link: Header, file: Header, fs: Fs, t: string, seen: string, actual: string)
    requires dst == "/tmp/r" && link == Header("a", TypeSymlink, 511, "../x", [])
    requires file.name == "a" && file.typeflag == TypeReg
    requires fs == map[dst := DirNode(448)] && t == "/tmp/r/a"
    requires seen == "/tmp/r/x" && actual == "/tmp/x"
    ensures Join(dst, file.name) == t && Inside(AsWritten, t, dst)
    ensures ResolveLink(t, link.linkname) == actual && !Within(actual, dst)
    ensures ExtractAll(AsWritten, dst, [link, file], Eof, fs) ==
      Outcome(Some(IsASymlink(t)), fs[t := LinkNode(link.linkname)])
    ensures ExtractAll(Hardened, dst, [link, file], Eof, fs) == Outcome(Some(LinkOutside(actual, dst)), fs)
  {
    RelativeLinkEscape(dst, link, fs, t, seen, actual);
    LinkEntryPath(dst, t);
    assert HasPrefix(t, dst);
    var fs1 := fs[t := LinkNode(link.linkname)];
    assert Step(AsWritten, dst, link, fs) == Ok(fs1) by {
      assert [link][1..] == [];
    }
    assert Parts(t) == ["tmp", "r", "a"] && !Implicit(Parts(t));
    assert AfterWrite(fs1, t, file.mode, file.content) == Err(IsASymlink(t));
    assert Step(AsWritten, dst, file, fs1) == Err(IsASymlink(t));
    assert [link, file][1..] == [file];
    assert [link, file][0] == link;
  }
}
