/**
 * Lexical path handling of Go's `path/filepath` package on Unix, as the
 * extractor and the launcher use it: `Clean`, `Join` (two elements) and
 * `HasPrefix`.
 *
 * A path string is read as a list of segments split at '/'; `Clean` folds
 * the segments into a normal list (no empty segment, no ".", ".." only at
 * the front of a relative path) and renders it again. `Rooted` and `Parts`
 * give the cleaned path's two components; `Within` is the component-wise
 * containment test that `HasPrefix` is often mistaken for.
 */
module Paths {

  /** The segments of `s` between '/' characters, in order, empty ones included. */
  function Segments(s: string): (segs: seq<string>)
    ensures |segs| >= 1
  {
    if s == [] then [""]
    else
      var rest := Segments(s[1..]);
      if s[0] == '/' then [""] + rest else [[s[0]] + rest[0]] + rest[1..]
  }

  /** The segments joined back with '/' (Go's strings.Join(xs, "/")). */
  function JoinParts(xs: seq<string>): string
  {
    if xs == [] then ""
    else if |xs| == 1 then xs[0]
    else xs[0] + "/" + JoinParts(xs[1..])
  }

  predicate Rooted(s: string)
  {
    |s| > 0 && s[0] == '/'
  }

  /** One step of Clean's fold: drop empty and "." segments, let ".." remove
      the last name (or stay at the root, or pile up in a relative path). */
  function Push(rooted: bool, stack: seq<string>, seg: string): seq<string>
  {
    if seg == "" || seg == "." then stack
    else if seg == ".." then
      if |stack| > 0 && stack[|stack| - 1] != ".." then stack[..|stack| - 1]
      else if rooted then stack
      else stack + [".."]
    else stack + [seg]
  }

  function Reduce(rooted: bool, stack: seq<string>, segs: seq<string>): seq<string>
    decreases |segs|
  {
    if segs == [] then stack else Reduce(rooted, Push(rooted, stack, segs[0]), segs[1..])
  }

  /** The components of the cleaned form of `s`. */
  function Parts(s: string): seq<string>
  {
    Reduce(Rooted(s), [], Segments(s))
  }

  /** A path string built from a root flag and components; "." for nothing. */
  function Render(rooted: bool, xs: seq<string>): string
  {
    if rooted then "/" + JoinParts(xs)
    else if xs == [] then "."
    else JoinParts(xs)
  }

  /** filepath.Clean. */
  function Clean(s: string): string
  {
    Render(Rooted(s), Parts(s))
  }

  /** filepath.Join(a, b): the first non-empty element and what follows, joined and cleaned. */
  function Join(a: string, b: string): string
  {
    if a != "" then Clean(a + "/" + b)
    else if b != "" then Clean(b)
    else ""
  }

  /** filepath.HasPrefix on Unix: a plain string-prefix test. */
  predicate HasPrefix(p: string, prefix: string)
  {
    prefix <= p
  }

  /** All but the last component of the cleaned path ("/" and "." stay as they are): filepath.Dir
      for a path that is already clean. */
  function Dir(p: string): string
  {
    var xs := Parts(p);
    Render(Rooted(p), if xs == [] then [] else xs[..|xs| - 1])
  }

  /** `p`, once cleaned, is `root` or lies below it, compared component by component. */
  predicate Within(p: string, root: string)
  {
    var ps, rs := Parts(p), Parts(root);
    Rooted(p) == Rooted(root) && rs <= ps &&
    forall i | |rs| <= i < |ps| :: ps[i] != ".."
  }

  // ----- normal component lists -----

  predicate NormalPart(x: string)
  {
    x != "" && x != "." && '/' !in x
  }

  /** The shape Clean leaves behind. */
  predicate Normal(rooted: bool, xs: seq<string>)
  {
    (forall i | 0 <= i < |xs| :: NormalPart(xs[i]) && (rooted ==> xs[i] != "..")) &&
    (forall i, j | 0 <= i < j < |xs| && xs[j] == ".." :: xs[i] == "..")
  }

  lemma {:induction false} SegmentsSlashFree(s: string)
    ensures forall i | 0 <= i < |Segments(s)| :: '/' !in Segments(s)[i]
    decreases |s|
  {
    if s != [] {
      SegmentsSlashFree(s[1..]);
      var rest := Segments(s[1..]);
      if s[0] != '/' {
        assert '/' !in rest[0];
        assert forall i | 1 <= i < |Segments(s)| :: Segments(s)[i] == rest[i];
      }
    }
  }

  lemma {:induction false} SegmentsConcat(a: string, t: string)
    ensures Segments(a + "/" + t) == Segments(a) + Segments(t)
    decreases |a|
  {
    if a == [] {
      assert a + "/" + t == "/" + t;
      assert ("/" + t)[1..] == t;
    } else {
      assert (a + "/" + t)[1..] == a[1..] + "/" + t;
      assert (a + "/" + t)[0] == a[0];
      SegmentsConcat(a[1..], t);
    }
  }

  lemma {:induction false} SegmentsOfSlashFree(a: string)
    requires '/' !in a
    ensures Segments(a) == [a]
    decreases |a|
  {
    if a != [] {
      SegmentsOfSlashFree(a[1..]);
      assert [a[0]] + a[1..] == a;
    }
  }

  lemma {:induction false} SegmentsJoinParts(xs: seq<string>)
    requires xs != []
    requires forall i | 0 <= i < |xs| :: '/' !in xs[i]
    ensures Segments(JoinParts(xs)) == xs
    decreases |xs|
  {
    if |xs| == 1 {
      SegmentsOfSlashFree(xs[0]);
    } else {
      SegmentsJoinParts(xs[1..]);
      SegmentsConcat(xs[0], JoinParts(xs[1..]));
      SegmentsOfSlashFree(xs[0]);
      assert [xs[0]] + xs[1..] == xs;
    }
  }

  lemma {:induction false} ReduceConcat(r: bool, acc: seq<string>, xs: seq<string>, ys: seq<string>)
    ensures Reduce(r, acc, xs + ys) == Reduce(r, Reduce(r, acc, xs), ys)
    decreases |xs|
  {
    if xs != [] {
      assert (xs + ys)[0] == xs[0];
      assert (xs + ys)[1..] == xs[1..] + ys;
      ReduceConcat(r, Push(r, acc, xs[0]), xs[1..], ys);
    } else {
      assert xs + ys == ys;
    }
  }

  /** Reducing an already normal list changes nothing. */
  lemma {:induction false} ReduceOfNormal(r: bool, acc: seq<string>, xs: seq<string>)
    requires Normal(r, acc + xs)
    ensures Reduce(r, acc, xs) == acc + xs
    decreases |xs|
  {
    if xs != [] {
      var all := acc + xs;
      assert all[|acc|] == xs[0];
      if xs[0] == ".." {
        assert !r;
        if |acc| > 0 {
          assert all[|acc| - 1] == acc[|acc| - 1];
        }
      }
      assert Push(r, acc, xs[0]) == acc + [xs[0]];
      assert (acc + [xs[0]]) + xs[1..] == all;
      ReduceOfNormal(r, acc + [xs[0]], xs[1..]);
    } else {
      assert acc + xs == acc;
    }
  }

  lemma PushKeepsNormal(r: bool, acc: seq<string>, seg: string)
    requires Normal(r, acc) && '/' !in seg
    ensures Normal(r, Push(r, acc, seg))
  {
    if seg == ".." && !(|acc| > 0 && acc[|acc| - 1] != "..") && !r {
      var n := acc + [".."];
      if |acc| > 0 {
        forall i | 0 <= i < |acc| ensures acc[i] == ".." {
          assert acc[|acc| - 1] == "..";
          if i < |acc| - 1 {
            assert acc[i] == "..";
          }
        }
      }
      assert Normal(r, n);
    }
  }

  lemma {:induction false} ReduceKeepsNormal(r: bool, acc: seq<string>, segs: seq<string>)
    requires Normal(r, acc)
    requires forall i | 0 <= i < |segs| :: '/' !in segs[i]
    ensures Normal(r, Reduce(r, acc, segs))
    decreases |segs|
  {
    if segs != [] {
      PushKeepsNormal(r, acc, segs[0]);
      ReduceKeepsNormal(r, Push(r, acc, segs[0]), segs[1..]);
    }
  }

  /** Clean's components are always in normal form. */
  lemma PartsNormal(s: string)
    ensures Normal(Rooted(s), Parts(s))
  {
    SegmentsSlashFree(s);
    ReduceKeepsNormal(Rooted(s), [], Segments(s));
  }

  /** Reading a rendered normal list gives the list back: Render is injective on normal lists. */
  lemma RenderParts(r: bool, xs: seq<string>)
    requires Normal(r, xs)
    ensures Rooted(Render(r, xs)) == r
    ensures Parts(Render(r, xs)) == xs
  {
    var s := Render(r, xs);
    assert forall i | 0 <= i < |xs| :: '/' !in xs[i];
    if r {
      assert s[1..] == JoinParts(xs);
      if xs == [] {
        assert s == "/";
        assert Segments(s) == ["", ""];
        assert Reduce(r, [], ["", ""]) == Reduce(r, [], [""]) == [];
      } else {
        SegmentsJoinParts(xs);
        assert Segments(s) == [""] + xs;
        ReduceOfNormal(r, [], xs);
      }
    } else if xs == [] {
      assert s == ".";
      SegmentsOfSlashFree(".");
    } else {
      assert JoinParts(xs)[0] == xs[0][0] by {
        assert xs[0] != "";
      }
      SegmentsJoinParts(xs);
      ReduceOfNormal(r, [], xs);
    }
  }

  /** Clean is idempotent, and cleaning keeps the root flag and the components. */
  lemma CleanIdempotent(s: string)
    ensures Rooted(Clean(s)) == Rooted(s)
    ensures Parts(Clean(s)) == Parts(s)
    ensures Clean(Clean(s)) == Clean(s)
  {
    PartsNormal(s);
    RenderParts(Rooted(s), Parts(s));
  }

  /** Join's result in components: the second element's segments folded onto the first's parts. */
  lemma JoinComponents(a: string, b: string)
    requires a != ""
    ensures Rooted(Join(a, b)) == Rooted(a)
    ensures Parts(Join(a, b)) == Reduce(Rooted(a), Parts(a), Segments(b))
    ensures Clean(Join(a, b)) == Join(a, b)
  {
    var s := a + "/" + b;
    assert Rooted(s) == Rooted(a);
    SegmentsConcat(a, b);
    ReduceConcat(Rooted(a), [], Segments(a), Segments(b));
    CleanIdempotent(s);
  }

  /** Folding segments with no ".." only appends names: the stack is kept as a prefix. */
  lemma {:induction false} ReduceWithoutDotDot(r: bool, acc: seq<string>, segs: seq<string>)
    requires forall i | 0 <= i < |segs| :: segs[i] != ".."
    ensures acc <= Reduce(r, acc, segs)
    ensures forall i | |acc| <= i < |Reduce(r, acc, segs)| :: Reduce(r, acc, segs)[i] != ".."
    decreases |segs|
  {
    if segs != [] {
      var next := Push(r, acc, segs[0]);
      ReduceWithoutDotDot(r, next, segs[1..]);
      assert acc <= next;
      assert forall i | |acc| <= i < |next| :: next[i] != "..";
    }
  }

  /** Joining a name without ".." segments onto a directory stays within that directory. */
  lemma JoinStaysWithin(a: string, b: string)
    requires a != ""
    requires forall i | 0 <= i < |Segments(b)| :: Segments(b)[i] != ".."
    ensures Within(Join(a, b), a)
  {
    JoinComponents(a, b);
    ReduceWithoutDotDot(Rooted(a), Parts(a), Segments(b));
  }

  /** An absolute second element is joined as a relative one: filepath.Join(a, "/" + b) names
      the same path as filepath.Join(a, b). */
  lemma JoinAbsoluteName(a: string, b: string)
    requires a != ""
    ensures Join(a, "/" + b) == Join(a, b)
  {
    var r, sa, sb := Rooted(a), Segments(a), Segments(b);
    assert ("/" + b)[1..] == b;
    assert Segments("/" + b) == [""] + sb;
    SegmentsConcat(a, "/" + b);
    SegmentsConcat(a, b);
    assert Rooted(a + "/" + ("/" + b)) == r && Rooted(a + "/" + b) == r;
    ReduceConcat(r, [], sa, [""] + sb);
    ReduceConcat(r, [], sa, sb);
    var acc := Reduce(r, [], sa);
    assert ([""] + sb)[0] == "" && ([""] + sb)[1..] == sb;
    assert Reduce(r, acc, [""] + sb) == Reduce(r, acc, sb);
  }

  /** A leading ".." in the second element climbs out of the last component of the cleaned
      first element: filepath.Join(a, "../" + w) is filepath.Join(Dir(a), w). `Dir` drops the
      last component of the cleaned path, which is filepath.Dir(a) when `a` is clean (for an
      uncleaned "/a/" filepath.Dir keeps "/a"). */
  lemma JoinUp(a: string, w: string)
    requires a != "" && Parts(a) != [] && Parts(a)[|Parts(a)| - 1] != ".."
    ensures Join(a, "../" + w) == Join(Dir(a), w)
  {
    var r, ps := Rooted(a), Parts(a);
    var up := ps[..|ps| - 1];
    assert "../" + w == ".." + "/" + w;
    SegmentsConcat("..", w);
    SegmentsOfSlashFree("..");
    var sw := Segments(w);
    assert Segments("../" + w) == [".."] + sw;
    JoinComponents(a, "../" + w);
    assert ([".."] + sw)[0] == ".." && ([".."] + sw)[1..] == sw;
    assert Push(r, ps, "..") == up;
    assert Parts(Join(a, "../" + w)) == Reduce(r, up, sw);
    PartsNormal(a);
    assert Normal(r, up);
    RenderParts(r, up);
    assert Dir(a) == Render(r, up);
    assert Dir(a) != "" by {
      if !r && up != [] {
        assert |JoinParts(up)| >= |up[0]| > 0;
      }
    }
    JoinComponents(Dir(a), w);
  }

  lemma {:induction false} JoinPartsPrefix(xs: seq<string>, ys: seq<string>)
    requires xs != [] && xs <= ys
    ensures JoinParts(xs) <= JoinParts(ys)
    decreases |xs|
  {
    assert xs[0] == ys[0];
    if |xs| > 1 {
      JoinPartsPrefix(xs[1..], ys[1..]);
    }
  }

  /** Component-wise containment implies the string-prefix test of the cleaned
      paths, unless the root is the relative ".": it is the stricter test. */
  lemma WithinImpliesPrefix(p: string, root: string)
    requires Within(p, root)
    requires Rooted(root) || Parts(root) != []
    ensures HasPrefix(Clean(p), Clean(root))
  {
    var ps, rs := Parts(p), Parts(root);
    if rs != [] {
      JoinPartsPrefix(rs, ps);
    }
  }

  /** Containment depends only on the cleaned forms. */
  lemma WithinClean(p: string, root: string)
    ensures Within(Clean(p), root) == Within(p, root)
    ensures Within(p, Clean(root)) == Within(p, root)
  {
    CleanIdempotent(p);
    CleanIdempotent(root);
  }
}
