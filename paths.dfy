/** POSIX path joining as Node's `path.join` does it: the non-empty arguments are
    joined with '/', then the result is normalised (empty and "." segments dropped,
    ".." resolved against the segment before it, a trailing '/' kept).
    The generator builds every URL path and every output path this way. */
module Paths {

  /** `s.split('/')`: the pieces between separators, empty ones included. */
  function Split(s: string): (r: seq<string>)
    ensures |r| >= 1
  {
    if s == [] then [""]
    else if s[0] == '/' then [""] + Split(s[1..])
    else
      var rest := Split(s[1..]);
      [[s[0]] + rest[0]] + rest[1..]
  }

  /** The segments joined with '/' between them. */
  function Join(segs: seq<string>): string
  {
    if |segs| == 0 then ""
    else if |segs| == 1 then segs[0]
    else segs[0] + "/" + Join(segs[1..])
  }

  /** A segment that normalisation keeps as it is: a directory entry name
      other than "." and "..", or a slug without separators. */
  predicate Plain(seg: string)
  {
    seg != "" && seg != "." && seg != ".." && '/' !in seg
  }

  predicate AllPlain(segs: seq<string>)
  {
    forall i | 0 <= i < |segs| :: Plain(segs[i])
  }

  /** One segment of normalisation, with `stack` the segments kept so far.
      `aboveRoot` is true for relative paths, where a ".." that has nothing
      left to cancel is kept. */
  function Step(stack: seq<string>, seg: string, aboveRoot: bool): seq<string>
  {
    if seg == "" || seg == "." then stack
    else if seg == ".." then
      if |stack| > 0 && stack[|stack| - 1] != ".." then stack[..|stack| - 1]
      else if aboveRoot then stack + [".."]
      else stack
    else stack + [seg]
  }

  function Resolve(stack: seq<string>, segs: seq<string>, aboveRoot: bool): seq<string>
    decreases |segs|
  {
    if segs == [] then stack
    else Resolve(Step(stack, segs[0], aboveRoot), segs[1..], aboveRoot)
  }

  /** `path.posix.normalize(p)`. */
  function Normalize(p: string): (r: string)
    ensures r != ""
    ensures p != "" && p[0] == '/' ==> r[0] == '/'
  {
    if p == "" then "."
    else
      var absolute := p[0] == '/';
      var trailing := p[|p| - 1] == '/';
      var segs := Resolve([], Split(p), !absolute);
      ResolveKeepsNonEmpty([], Split(p), !absolute);
      if segs == [] then
        (if absolute then "/" else if trailing then "./" else ".")
      else
        (if absolute then "/" else "") + Join(segs) + (if trailing then "/" else "")
  }

  /** The parts that are not the empty string, in order. */
  function NonEmpty(parts: seq<string>): (r: seq<string>)
    ensures forall i | 0 <= i < |r| :: r[i] != ""
  {
    if parts == [] then []
    else if parts[0] == "" then NonEmpty(parts[1..])
    else [parts[0]] + NonEmpty(parts[1..])
  }

  /** `path.posix.join(...parts)`. */
  function PathJoin(parts: seq<string>): (r: string)
    ensures r != ""
    ensures parts != [] && parts[0] != "" && parts[0][0] == '/' ==> r[0] == '/'
  {
    var kept := NonEmpty(parts);
    if parts != [] && parts[0] != "" && |kept| > 1 then
      assert Join(kept) == kept[0] + "/" + Join(kept[1..]);
      Normalize(Join(kept))
    else if kept == [] then "." else Normalize(Join(kept))
  }

  /** Normalisation keeps no empty segment: what it pushes is never "". */
  lemma {:induction false} ResolveKeepsNonEmpty(stack: seq<string>, segs: seq<string>, aboveRoot: bool)
    requires forall i | 0 <= i < |stack| :: stack[i] != ""
    ensures forall i | 0 <= i < |Resolve(stack, segs, aboveRoot)| :: Resolve(stack, segs, aboveRoot)[i] != ""
    decreases |segs|
  {
    if segs != [] {
      ResolveKeepsNonEmpty(Step(stack, segs[0], aboveRoot), segs[1..], aboveRoot);
    }
  }

  /** The URL prefix of a directory reached through `dirs` from the content root:
      "/" at the root, otherwise "/d1/.../dn/". */
  function DirUrl(dirs: seq<string>): string
  {
    if dirs == [] then "/" else "/" + Join(dirs) + "/"
  }

  // ---------------------------------------------------------------------------
  // Splitting what was joined

  lemma {:induction false} SplitAppend(a: string, b: string)
    ensures Split(a + "/" + b) == Split(a) + Split(b)
  {
    if a == [] {
      assert a + "/" + b == "/" + b;
      assert ("/" + b)[1..] == b;
    } else {
      assert (a + "/" + b)[0] == a[0];
      assert (a + "/" + b)[1..] == a[1..] + "/" + b;
      SplitAppend(a[1..], b);
    }
  }

  lemma {:induction false} SplitNoSeparator(s: string)
    requires '/' !in s
    ensures Split(s) == [s]
  {
    if s != [] {
      assert s[0] in s;
      assert forall c | c in s[1..] :: c in s;
      SplitNoSeparator(s[1..]);
      assert [s[0]] + s[1..] == s;
    }
  }

  lemma {:induction false} JoinAppend(a: seq<string>, b: seq<string>)
    requires a != [] && b != []
    ensures Join(a + b) == Join(a) + "/" + Join(b)
  {
    if |a| == 1 {
      assert (a + b)[1..] == b;
    } else {
      assert (a + b)[0] == a[0];
      assert (a + b)[1..] == a[1..] + b;
      JoinAppend(a[1..], b);
    }
  }

  /** Splitting undoes joining when no segment holds a separator. */
  lemma {:induction false} SplitJoin(segs: seq<string>)
    requires |segs| >= 1
    requires forall i | 0 <= i < |segs| :: '/' !in segs[i]
    ensures Split(Join(segs)) == segs
  {
    if |segs| == 1 {
      SplitNoSeparator(segs[0]);
    } else {
      SplitAppend(segs[0], Join(segs[1..]));
      SplitNoSeparator(segs[0]);
      SplitJoin(segs[1..]);
    }
  }

  // ---------------------------------------------------------------------------
  // Normalising a path made of plain and empty segments

  predicate Clean(segs: seq<string>)
  {
    forall i | 0 <= i < |segs| :: segs[i] == "" || Plain(segs[i])
  }

  lemma {:induction false} NonEmptyAppend(a: seq<string>, b: seq<string>)
    ensures NonEmpty(a + b) == NonEmpty(a) + NonEmpty(b)
  {
    if a != [] {
      assert (a + b)[0] == a[0];
      assert (a + b)[1..] == a[1..] + b;
      NonEmptyAppend(a[1..], b);
    } else {
      assert a + b == b;
    }
  }

  lemma {:induction false} NonEmptyPlain(segs: seq<string>)
    requires AllPlain(segs)
    ensures NonEmpty(segs) == segs
  {
    if segs != [] {
      NonEmptyPlain(segs[1..]);
    }
  }

  lemma {:induction false} ResolveClean(stack: seq<string>, segs: seq<string>, aboveRoot: bool)
    requires Clean(segs)
    ensures Resolve(stack, segs, aboveRoot) == stack + NonEmpty(segs)
    decreases |segs|
  {
    if segs != [] {
      ResolveClean(Step(stack, segs[0], aboveRoot), segs[1..], aboveRoot);
      if segs[0] != "" {
        assert stack + [segs[0]] + NonEmpty(segs[1..]) == stack + ([segs[0]] + NonEmpty(segs[1..]));
      }
    }
  }

  lemma {:induction false} JoinLastSegment(segs: seq<string>)
    requires |segs| >= 2
    ensures Join(segs) == Join(segs[..|segs| - 1]) + "/" + segs[|segs| - 1]
  {
    JoinAppend(segs[..|segs| - 1], [segs[|segs| - 1]]);
    assert segs[..|segs| - 1] + [segs[|segs| - 1]] == segs;
  }

  lemma JoinStartsWithSeparator(segs: seq<string>)
    requires |segs| >= 2 && segs[0] == ""
    ensures Join(segs) != "" && Join(segs)[0] == '/'
  {
    assert Join(segs) == "" + "/" + Join(segs[1..]);
  }

  lemma JoinEndsWithSeparator(segs: seq<string>)
    requires |segs| >= 2 && Clean(segs)
    ensures Join(segs) != ""
    ensures (Join(segs)[|Join(segs)| - 1] == '/') == (segs[|segs| - 1] == "")
  {
    JoinLastSegment(segs);
    var last := segs[|segs| - 1];
    var p := Join(segs);
    if last != "" {
      assert p[|p| - 1] == last[|last| - 1];
      assert last[|last| - 1] in last;
    }
  }

  /** What normalisation makes of an absolute path whose segments are plain or
      empty: the plain ones joined, with a trailing '/' exactly when the path
      ends in one. */
  lemma NormalizeClean(segs: seq<string>)
    requires |segs| >= 2 && segs[0] == ""
    requires Clean(segs)
    ensures Normalize(Join(segs)) ==
      if NonEmpty(segs) == [] then "/"
      else "/" + Join(NonEmpty(segs)) + (if segs[|segs| - 1] == "" then "/" else "")
  {
    var p := Join(segs);
    JoinStartsWithSeparator(segs);
    JoinEndsWithSeparator(segs);
    SplitJoin(segs);
    ResolveClean([], segs, false);
    assert Resolve([], Split(p), false) == NonEmpty(segs);
  }

  /** DirUrl written as a join of segments starting and ending with an empty one. */
  lemma DirUrlSegments(dirs: seq<string>)
    ensures DirUrl(dirs) == Join([""] + dirs + [""])
  {
    if dirs == [] {
      assert [""] + dirs + [""] == ["", ""];
    } else {
      var inner := Join(dirs);
      assert [""] + dirs + [""] == [""] + (dirs + [""]);
      calc {
        Join([""] + (dirs + [""]));
        { JoinAppend([""], dirs + [""]); }
        "" + "/" + Join(dirs + [""]);
        { JoinAppend(dirs, [""]); }
        "" + "/" + (inner + "/" + "");
        { assert "" + "/" + (inner + "/" + "") == "/" + inner + "/"; }
        "/" + inner + "/";
      }
    }
  }

  /** An absolute path of plain segments is already normal. */
  lemma NormalizePlainAbsolute(segs: seq<string>)
    requires segs != [] && AllPlain(segs)
    ensures Normalize("/" + Join(segs)) == "/" + Join(segs)
  {
    var full := [""] + segs;
    assert Join(full) == "/" + Join(segs) by {
      JoinAppend([""], segs);
      assert "" + "/" + Join(segs) == "/" + Join(segs);
    }
    assert Clean(full) by {
      assert forall i | 1 <= i < |full| :: full[i] == segs[i - 1];
    }
    assert NonEmpty(full) == segs by {
      NonEmptyAppend([""], segs);
      assert [""][1..] == [];
      NonEmptyPlain(segs);
    }
    assert full[|full| - 1] == segs[|segs| - 1];
    NormalizeClean(full);
  }

  lemma JoinOfPlainIsNotEmpty(segs: seq<string>)
    requires segs != [] && AllPlain(segs)
    ensures Join(segs) != ""
  {
    if |segs| > 1 {
      assert Join(segs) == segs[0] + "/" + Join(segs[1..]);
    }
  }

  lemma {:induction false} CleanAppend(a: seq<string>, b: seq<string>)
    requires Clean(a) && Clean(b)
    ensures Clean(a + b)
  {
    assert forall i | 0 <= i < |a + b| :: (a + b)[i] == (if i < |a| then a[i] else b[i - |a|]);
  }

  // ---------------------------------------------------------------------------
  // The joins the generator performs

  lemma JoinTwo(a: string, b: string)
    ensures Join([a, b]) == a + "/" + b
  {
    assert [a, b][1..] == [b];
  }

  lemma JoinThree(a: string, b: string, c: string)
    ensures Join([a, b, c]) == a + "/" + b + "/" + c
  {
    assert [a, b, c][1..] == [b, c];
    JoinTwo(b, c);
  }

  lemma NonEmptyTwo(a: string, b: string)
    ensures NonEmpty([a, b]) == (if a == "" then [] else [a]) + (if b == "" then [] else [b])
  {
    assert [a, b][1..] == [b];
    assert [b][1..] == [];
    assert NonEmpty([b]) == (if b == "" then [] else [b]) + NonEmpty([]);
  }

  lemma NonEmptyThree(a: string, b: string, c: string)
    ensures NonEmpty([a, b, c]) == (if a == "" then [] else [a]) + NonEmpty([b, c])
  {
    assert [a, b, c][1..] == [b, c];
  }

  /** The segments of a directory URL: empty, the names, empty. */
  lemma DirSegments(dirs: seq<string>)
    requires AllPlain(dirs)
    ensures Clean([""] + dirs + [""])
    ensures NonEmpty([""] + dirs + [""]) == dirs
    ensures Join([""] + dirs + [""]) == DirUrl(dirs)
  {
    var base := [""] + dirs + [""];
    DirUrlSegments(dirs);
    assert forall i | 1 <= i < |base| - 1 :: base[i] == dirs[i - 1];
    assert base == ([""] + dirs) + [""];
    NonEmptyAppend([""] + dirs, [""]);
    NonEmptyAppend([""], dirs);
    NonEmptyPlain(dirs);
  }

  /** Normalising a directory URL followed by further plain or empty segments. */
  lemma JoinOntoDir(dirs: seq<string>, tail: seq<string>)
    requires AllPlain(dirs) && tail != [] && Clean(tail)
    ensures Normalize(DirUrl(dirs) + "/" + Join(tail)) ==
      if dirs + NonEmpty(tail) == [] then "/"
      else "/" + Join(dirs + NonEmpty(tail)) + (if tail[|tail| - 1] == "" then "/" else "")
  {
    var base := [""] + dirs + [""];
    var segs := base + tail;
    DirSegments(dirs);
    assert Join(segs) == DirUrl(dirs) + "/" + Join(tail) by {
      JoinAppend(base, tail);
    }
    assert NonEmpty(segs) == dirs + NonEmpty(tail) by {
      NonEmptyAppend(base, tail);
    }
    assert segs[|segs| - 1] == tail[|tail| - 1];
    CleanAppend(base, tail);
    NormalizeClean(segs);
  }

  /** Entering a subdirectory: `path.join(baseUrl, name, '/')` appends the
      directory's name as one more URL segment. */
  lemma SubdirUrl(dirs: seq<string>, name: string)
    requires AllPlain(dirs) && Plain(name)
    ensures PathJoin([DirUrl(dirs), name, "/"]) == DirUrl(dirs + [name])
  {
    var parts := [DirUrl(dirs), name, "/"];
    assert NonEmpty(parts) == parts by {
      NonEmptyThree(DirUrl(dirs), name, "/");
      NonEmptyTwo(name, "/");
    }
    var tail := [name, "", ""];
    assert Join(parts) == DirUrl(dirs) + "/" + Join(tail) by {
      JoinThree(DirUrl(dirs), name, "/");
      JoinThree(name, "", "");
    }
    assert NonEmpty(tail) == [name] by {
      NonEmptyThree(name, "", "");
      NonEmptyTwo("", "");
    }
    JoinOntoDir(dirs, tail);
    JoinOfPlainIsNotEmpty(dirs + [name]);
  }

  /** A page's URL: `path.join(baseUrl, slug)` is the nested directory names
      followed by the slug, after one leading '/'. */
  lemma PageUrl(dirs: seq<string>, slug: string)
    requires AllPlain(dirs) && Plain(slug)
    ensures PathJoin([DirUrl(dirs), slug]) == "/" + Join(dirs + [slug])
  {
    var parts := [DirUrl(dirs), slug];
    assert NonEmpty(parts) == parts by {
      NonEmptyTwo(DirUrl(dirs), slug);
    }
    assert Join(parts) == DirUrl(dirs) + "/" + Join([slug]) by {
      JoinTwo(DirUrl(dirs), slug);
    }
    assert NonEmpty([slug]) == [slug];
    JoinOntoDir(dirs, [slug]);
  }

  /** An empty slug (a file named exactly ".md") leaves the directory's own URL,
      trailing '/' included. */
  lemma PageUrlEmptySlug(dirs: seq<string>)
    requires AllPlain(dirs)
    ensures PathJoin([DirUrl(dirs), ""]) == DirUrl(dirs)
  {
    var parts := [DirUrl(dirs), ""];
    assert NonEmpty(parts) == [DirUrl(dirs)] by {
      NonEmptyTwo(DirUrl(dirs), "");
    }
    var base := [""] + dirs + [""];
    DirSegments(dirs);
    NormalizeClean(base);
    if dirs != [] {
      JoinOfPlainIsNotEmpty(dirs);
    }
  }

  lemma AllPlainAppend(a: seq<string>, b: seq<string>)
    requires AllPlain(a) && AllPlain(b)
    ensures AllPlain(a + b)
  {
    assert forall i | 0 <= i < |a + b| :: (a + b)[i] == (if i < |a| then a[i] else b[i - |a|]);
  }

  /** Parts with no empty one that join to an absolute path of plain segments
      are joined to exactly that path. */
  lemma PathJoinPlainAbsolute(parts: seq<string>, all: seq<string>)
    requires NonEmpty(parts) == parts && parts != []
    requires all != [] && AllPlain(all) && Join(parts) == "/" + Join(all)
    ensures PathJoin(parts) == "/" + Join(all)
  {
    NormalizePlainAbsolute(all);
  }

  /** A plain segment joined onto an absolute path of plain segments is one more
      segment of it. */
  lemma JoinPlainOnto(base: seq<string>, seg: string)
    requires base != [] && AllPlain(base) && Plain(seg)
    ensures PathJoin(["/" + Join(base), seg]) == "/" + Join(base + [seg])
  {
    var parts := ["/" + Join(base), seg];
    NonEmptyTwo("/" + Join(base), seg);
    assert NonEmpty(parts) == parts;
    JoinTwo("/" + Join(base), seg);
    JoinAppend(base, [seg]);
    assert Join(parts) == "/" + Join(base + [seg]);
    assert AllPlain(base + [seg]) by {
      assert forall i | 0 <= i < |base| + 1 :: (base + [seg])[i] == (if i < |base| then base[i] else seg);
    }
    NormalizePlainAbsolute(base + [seg]);
  }

  /** Whatever the slug, a path joined onto an absolute base is absolute. */
  lemma JoinOntoAbsolute(base: string, rest: seq<string>)
    requires base != "" && base[0] == '/'
    ensures PathJoin([base] + rest) != "" && PathJoin([base] + rest)[0] == '/'
  {
    var kept := NonEmpty([base] + rest);
    assert ([base] + rest)[1..] == rest;
    assert kept == [base] + NonEmpty(rest);
    if |kept| > 1 {
      assert Join(kept) == base + "/" + Join(kept[1..]);
    }
    assert Join(kept)[0] == '/';
  }
}
