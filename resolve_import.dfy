/**
  Resolution of an import specifier against the name of the importing module
  (src/utils/resolve-import.ts).

  A specifier is bundle-internal when, parsed as a URL against an `https` base
  whose origin is random, it keeps that origin. The model follows the scheme and
  authority rules of the WHATWG URL Standard's basic URL parser closely enough
  to decide that question; bundle-internal specifiers are then joined to the
  directory of the importer and normalised the way POSIX `path.join` does.
*/
module ResolveImport {
  import opened Wrappers

  // ---------------------------------------------------------------------------
  // Origin test (isRelativeUrl)
  // ---------------------------------------------------------------------------

  predicate IsAsciiAlpha(c: char) {
    ('a' <= c <= 'z') || ('A' <= c <= 'Z')
  }

  predicate IsSchemeChar(c: char) {
    IsAsciiAlpha(c) || ('0' <= c <= '9') || c == '+' || c == '-' || c == '.'
  }

  function LowerAscii(c: char): (r: char)
    ensures IsAsciiAlpha(c) ==> 'a' <= r <= 'z'
    ensures !('A' <= c <= 'Z') ==> r == c
  {
    if 'A' <= c <= 'Z' then (c as int + 32) as char else c
  }

  function Lower(s: string): (r: string)
    ensures |r| == |s|
    ensures forall i :: 0 <= i < |s| ==> r[i] == LowerAscii(s[i])
  {
    if s == [] then [] else [LowerAscii(s[0])] + Lower(s[1..])
  }

  /** Index of the ':' ending the scheme scanned from position i on, if the scan reaches one. */
  function ScanScheme(s: string, i: nat): (r: Option<nat>)
    requires 0 < i <= |s|
    decreases |s| - i
    ensures r.Some? ==> i <= r.value < |s| && s[r.value] == ':'
    ensures r.Some? ==> forall k :: i <= k < r.value ==> IsSchemeChar(s[k])
  {
    if i == |s| then None
    else if s[i] == ':' then Some(i)
    else if IsSchemeChar(s[i]) then ScanScheme(s, i + 1)
    else None
  }

  /** Position of the colon ending the URL scheme of `s`, or None when `s` has no scheme. */
  function SchemeColon(s: string): (r: Option<nat>)
    ensures r.Some? ==> 0 < r.value < |s| && s[r.value] == ':' && IsAsciiAlpha(s[0])
    ensures r.Some? ==> forall k :: 0 < k < r.value ==> IsSchemeChar(s[k])
  {
    if |s| > 0 && IsAsciiAlpha(s[0]) then ScanScheme(s, 1) else None
  }

  predicate IsSlash(c: char) {
    c == '/' || c == '\\'
  }

  /** Two leading (back)slashes: for a special base the rest names a new host. */
  predicate StartsWithAuthority(s: string) {
    |s| >= 2 && IsSlash(s[0]) && IsSlash(s[1])
  }

  /**
    The specifier keeps the origin of an `https` base with a random host: it has
    no scheme, or the scheme `https` (case-insensitive), and in both cases does
    not go on to name a host of its own.
  */
  predicate IsRelativeUrl(s: string) {
    match SchemeColon(s)
    case None => !StartsWithAuthority(s)
    case Some(i) => Lower(s[..i]) == "https" && !StartsWithAuthority(s[i + 1..])
  }

  // ---------------------------------------------------------------------------
  // POSIX paths
  // ---------------------------------------------------------------------------

  /**
    Scans indices i, i-1, ..., 1 for the slash that precedes the last segment;
    `matchedSlash` stays true while only trailing slashes were seen.
  */
  function DirEnd(p: string, i: nat, matchedSlash: bool): (r: Option<nat>)
    requires i < |p|
    decreases i
    ensures r.Some? ==> 1 <= r.value <= i && p[r.value] == '/'
    ensures r.Some? && matchedSlash ==> r.value < i
    ensures r.Some? && r.value < i ==> p[r.value + 1] != '/'
    ensures r.Some? ==> forall k :: r.value < k <= i && p[k] == '/' ==>
      matchedSlash && forall m :: k < m <= i ==> p[m] == '/'
    ensures r.None? ==> forall k :: 1 <= k <= i && p[k] == '/' ==>
      matchedSlash && forall m :: k < m <= i ==> p[m] == '/'
  {
    if i < 1 then None
    else if p[i] == '/' then
      if !matchedSlash then Some(i) else DirEnd(p, i - 1, matchedSlash)
    else DirEnd(p, i - 1, false)
  }

  /**
    `e` is the slash that separates the last name of `p` from its directory:
    it is past the first character, a name character follows it, and every
    later slash is trailing.
  */
  predicate LastSeparator(p: string, e: int) {
    1 <= e < |p| - 1 && p[e] == '/' && p[e + 1] != '/' &&
    forall k :: e < k < |p| && p[k] == '/' ==> forall m :: k < m < |p| ==> p[m] == '/'
  }

  /** POSIX `path.dirname`. */
  function Dirname(p: string): (r: string)
    ensures r != ""
    ensures |r| <= |p| ==> r == p[..|r|] || r == "."
  {
    if |p| == 0 then "."
    else
      var hasRoot := p[0] == '/';
      match DirEnd(p, |p| - 1, true)
      case None => if hasRoot then "/" else "."
      case Some(end) => if hasRoot && end == 1 then "//" else p[..end]
  }

  /** The segments of a path between its slashes; "a//b/" gives ["a", "", "b", ""]. */
  function Split(s: string): (r: seq<string>)
    ensures |r| >= 1
    ensures forall i :: 0 <= i < |r| ==> '/' !in r[i]
  {
    if |s| == 0 then [""]
    else
      var rest := Split(s[1..]);
      if s[0] == '/' then [""] + rest
      else [[s[0]] + rest[0]] + rest[1..]
  }

  /** The segments written back with single slashes between them. */
  function JoinSegments(segs: seq<string>): (r: string)
  {
    if segs == [] then ""
    else if |segs| == 1 then segs[0]
    else segs[0] + "/" + JoinSegments(segs[1..])
  }

  /**
    A normalised segment list: no empty or "." segment, no slash inside a
    segment, ".." only as a run of leading segments, and no ".." at all where
    the path may not climb above its root.
  */
  ghost predicate Clean(segs: seq<string>, allowAboveRoot: bool) {
    && (forall i :: 0 <= i < |segs| ==> segs[i] != "" && segs[i] != "." && '/' !in segs[i])
    && (forall i, j :: 0 <= i < j < |segs| && segs[j] == ".." ==> segs[i] == "..")
    && (!allowAboveRoot ==> forall i :: 0 <= i < |segs| ==> segs[i] != "..")
  }

  /**
    Node's normalizeString read as a stack of segments: "" and "." are dropped,
    ".." pops a real segment, and is otherwise kept when the path is relative.
  */
  function Collapse(stack: seq<string>, segs: seq<string>, allowAboveRoot: bool): (r: seq<string>)
    requires Clean(stack, allowAboveRoot)
    requires forall i :: 0 <= i < |segs| ==> '/' !in segs[i]
    decreases |segs|
    ensures Clean(r, allowAboveRoot)
  {
    if segs == [] then stack
    else
      var s := segs[0];
      if s == "" || s == "." then Collapse(stack, segs[1..], allowAboveRoot)
      else if s == ".." then
        if |stack| > 0 && stack[|stack| - 1] != ".." then
          Collapse(stack[..|stack| - 1], segs[1..], allowAboveRoot)
        else if allowAboveRoot then
          Collapse(stack + [".."], segs[1..], allowAboveRoot)
        else
          Collapse(stack, segs[1..], allowAboveRoot)
      else
        Collapse(stack + [s], segs[1..], allowAboveRoot)
  }

  /** POSIX `path.normalize`. */
  function Normalize(p: string): (r: string)
    ensures r != ""
  {
    if p == "" then "."
    else
      var isAbsolute := p[0] == '/';
      var trailingSeparator := p[|p| - 1] == '/';
      var segs := Collapse([], Split(p), !isAbsolute);
      if segs == [] then
        if isAbsolute then "/" else if trailingSeparator then "./" else "."
      else
        (if isAbsolute then "/" else "") + JoinSegments(segs) + (if trailingSeparator then "/" else "")
  }

  /** POSIX `path.join` of two arguments: the non-empty ones joined by "/", then normalised. */
  function PathJoin(a: string, b: string): (r: string)
    ensures r != ""
  {
    var joined := if a == "" then b else if b == "" then a else a + "/" + b;
    if joined == "" then "." else Normalize(joined)
  }

  /**
    `resolveImport(base, imported)`: None for a specifier outside the bundle,
    otherwise the specifier joined to the importer's directory, in normal form.
  */
  function Resolve(base: string, imported: string): (r: Option<string>)
    ensures r.None? <==> !IsRelativeUrl(imported)
    ensures r.Some? ==> r.value == PathJoin(Dirname(base), imported)
    ensures r.Some? ==> Normalize(r.value) == r.value && InNormalForm(r.value)
    ensures r.Some? ==> r.value != ""
  {
    if !IsRelativeUrl(imported) then None
    else
      var joined := PathJoin(Dirname(base), imported);
      PathJoinIsNormal(Dirname(base), imported);
      PathJoinInNormalForm(Dirname(base), imported);
      Some(joined)
  }

  // ---------------------------------------------------------------------------
  // Lemmas: scheme, directory name and segments
  // ---------------------------------------------------------------------------

  lemma {:induction false} ScanSchemeFinds(s: string, i: nat, c: nat)
    requires 0 < i <= c < |s| && s[c] == ':'
    requires forall k :: i <= k < c ==> IsSchemeChar(s[k])
    ensures ScanScheme(s, i) == Some(c)
    decreases c - i
  {
    if i < c {
      ScanSchemeFinds(s, i + 1, c);
    }
  }

  /**
    The converse of SchemeColon's contract: a letter, then scheme characters,
    then a colon is always recognised as a scheme ending at that colon.
  */
  lemma SchemeColonFinds(s: string, c: nat)
    requires 0 < c < |s| && s[c] == ':' && IsAsciiAlpha(s[0])
    requires forall k :: 0 < k < c ==> IsSchemeChar(s[k])
    ensures SchemeColon(s) == Some(c)
  {
    ScanSchemeFinds(s, 1, c);
  }

  /**
    Dirname against a definition by position: the text before the last
    separator ("//" when that separator is the second of two leading slashes),
    and otherwise "/" for a rooted path and "." for any other.
  */
  lemma DirnameLastSeparator(p: string)
    ensures forall e :: LastSeparator(p, e) ==> Dirname(p) == if p[0] == '/' && e == 1 then "//" else p[..e]
    ensures (forall e :: !LastSeparator(p, e)) ==> Dirname(p) == if |p| > 0 && p[0] == '/' then "/" else "."
  {
    if |p| > 0 {
      var end := DirEnd(p, |p| - 1, true);
      if end.Some? {
        assert LastSeparator(p, end.value);
      }
    }
  }

  /** The cases of POSIX `path.dirname` for repeated, leading and trailing slashes. */
  lemma DirnameExamples()
    ensures Dirname("a/b") == "a"
    ensures Dirname("a//b") == "a/"
    ensures Dirname("/a/b/") == "/a"
    ensures Dirname("//a") == "//"
    ensures Dirname("/a") == "/"
    ensures Dirname("a") == "."
  {
    DirnameLastSeparator("a/b");
    assert LastSeparator("a/b", 1);
    DirnameLastSeparator("a//b");
    assert LastSeparator("a//b", 2);
    DirnameLastSeparator("/a/b/");
    assert LastSeparator("/a/b/", 2);
    DirnameLastSeparator("//a");
    assert LastSeparator("//a", 1);
    DirnameLastSeparator("/a");
    DirnameLastSeparator("a");
  }

  /** Joining undoes splitting: Split loses nothing of the path. */
  lemma {:induction false} JoinSplit(s: string)
    ensures JoinSegments(Split(s)) == s
  {
    if |s| > 0 {
      var rest := Split(s[1..]);
      JoinSplit(s[1..]);
      if s[0] == '/' {
        JoinSegmentsCons("", rest);
        assert s == "/" + s[1..];
      } else if |rest| == 1 {
        assert s == [s[0]] + s[1..];
      } else {
        JoinSegmentsCons([s[0]] + rest[0], rest[1..]);
        assert [rest[0]] + rest[1..] == rest;
        JoinSegmentsCons(rest[0], rest[1..]);
        assert s == [s[0]] + s[1..];
      }
    }
  }

  // ---------------------------------------------------------------------------
  // Lemmas: normal form and idempotence of normalisation
  // ---------------------------------------------------------------------------

  lemma {:induction false} SplitNoSlash(a: string)
    requires '/' !in a
    ensures Split(a) == [a]
  {
    if |a| > 0 {
      assert a == [a[0]] + a[1..];
      SplitNoSlash(a[1..]);
    }
  }

  lemma {:induction false} SplitAfterSegment(a: string, b: string)
    requires '/' !in a
    ensures Split(a + "/" + b) == [a] + Split(b)
  {
    if |a| == 0 {
      assert a + "/" + b == "/" + b;
      assert ("/" + b)[1..] == b;
    } else {
      var t := a[1..] + "/" + b;
      assert (a + "/" + b)[1..] == t;
      assert (a + "/" + b)[0] == a[0];
      SplitAfterSegment(a[1..], b);
      assert [a[0]] + a[1..] == a;
    }
  }

  /** Splitting undoes joining, for slash-free segments. */
  lemma {:induction false} SplitJoin(segs: seq<string>)
    requires |segs| >= 1
    requires forall i :: 0 <= i < |segs| ==> '/' !in segs[i]
    ensures Split(JoinSegments(segs)) == segs
  {
    if |segs| == 1 {
      SplitNoSlash(segs[0]);
    } else {
      SplitJoin(segs[1..]);
      SplitAfterSegment(segs[0], JoinSegments(segs[1..]));
      assert [segs[0]] + segs[1..] == segs;
    }
  }

  lemma {:induction false} JoinSegmentsEnds(segs: seq<string>)
    requires |segs| >= 1 && forall i :: 0 <= i < |segs| ==> segs[i] != ""
    ensures var j := JoinSegments(segs); |j| > 0 && j[0] == segs[0][0] && j[|j| - 1] == segs[|segs| - 1][|segs[|segs| - 1]| - 1]
  {
    if |segs| > 1 {
      JoinSegmentsEnds(segs[1..]);
    }
  }

  lemma {:induction false} JoinSegmentsCons(s: string, segs: seq<string>)
    requires |segs| >= 1
    ensures JoinSegments([s] + segs) == s + "/" + JoinSegments(segs)
  {
    assert ([s] + segs)[1..] == segs;
  }

  lemma {:induction false} JoinSegmentsSnoc(segs: seq<string>, s: string)
    requires |segs| >= 1
    ensures JoinSegments(segs + [s]) == JoinSegments(segs) + "/" + s
  {
    if |segs| == 1 {
      assert segs + [s] == [segs[0], s];
    } else {
      assert (segs + [s])[1..] == segs[1..] + [s];
      JoinSegmentsSnoc(segs[1..], s);
    }
  }

  /** Collapsing distributes over concatenation of the segment list. */
  lemma {:induction false} CollapseAppend(stack: seq<string>, a: seq<string>, b: seq<string>, allow: bool)
    requires Clean(stack, allow)
    requires forall i :: 0 <= i < |a| ==> '/' !in a[i]
    requires forall i :: 0 <= i < |b| ==> '/' !in b[i]
    ensures Collapse(stack, a + b, allow) == Collapse(Collapse(stack, a, allow), b, allow)
    decreases |a|
  {
    if a == [] {
      assert a + b == b;
    } else {
      assert (a + b)[0] == a[0];
      assert (a + b)[1..] == a[1..] + b;
      assert forall i :: 0 <= i < |a + b| ==> '/' !in (a + b)[i] by {
        forall i | 0 <= i < |a + b| ensures '/' !in (a + b)[i] {
          if i < |a| { assert (a + b)[i] == a[i]; } else { assert (a + b)[i] == b[i - |a|]; }
        }
      }
      var s := a[0];
      if s == "" || s == "." {
        CollapseAppend(stack, a[1..], b, allow);
      } else if s == ".." {
        if |stack| > 0 && stack[|stack| - 1] != ".." {
          CollapseAppend(stack[..|stack| - 1], a[1..], b, allow);
        } else if allow {
          CollapseAppend(stack + [".."], a[1..], b, allow);
        } else {
          CollapseAppend(stack, a[1..], b, allow);
        }
      } else {
        CollapseAppend(stack + [s], a[1..], b, allow);
      }
    }
  }

  /** A clean segment list continues a clean stack unchanged. */
  lemma {:induction false} CollapseOfClean(stack: seq<string>, segs: seq<string>, allow: bool)
    requires Clean(stack + segs, allow)
    ensures Clean(stack, allow)
    ensures forall i :: 0 <= i < |segs| ==> '/' !in segs[i]
    ensures Collapse(stack, segs, allow) == stack + segs
    decreases |segs|
  {
    assert forall i :: 0 <= i < |stack| ==> stack[i] == (stack + segs)[i];
    assert forall i :: 0 <= i < |segs| ==> segs[i] == (stack + segs)[|stack| + i];
    if segs != [] {
      var s := segs[0];
      assert stack + segs == (stack + [s]) + segs[1..];
      CollapseOfClean(stack + [s], segs[1..], allow);
      if s == ".." {
        assert |stack| > 0 ==> stack[|stack| - 1] == "..";
      }
    }
  }

  /**
    One segment onto a clean stack: "" and "." change nothing, ".." pops a real
    segment, climbs above the start only where that is allowed, and a name is pushed.
  */
  lemma CollapseStep(stack: seq<string>, s: string, allow: bool)
    requires Clean(stack, allow) && '/' !in s
    ensures s == "" || s == "." ==> Collapse(stack, [s], allow) == stack
    ensures s == ".." && |stack| > 0 && stack[|stack| - 1] != ".." ==>
              Collapse(stack, [s], allow) == stack[..|stack| - 1]
    ensures s == ".." && (stack == [] || stack[|stack| - 1] == "..") ==>
              Collapse(stack, [s], allow) == if allow then stack + [".."] else stack
    ensures s != "" && s != "." && s != ".." ==> Collapse(stack, [s], allow) == stack + [s]
  {
    assert [s][0] == s && [s][1..] == [];
  }

  /** A ".." right after a real segment cancels it. */
  lemma CollapsePop(stack: seq<string>, s: string, allow: bool)
    requires Clean(stack + [s], allow) && s != ".."
    ensures Collapse(stack + [s], [".."], allow) == stack
  {
    var t := stack + [s];
    assert t[..|t| - 1] == stack;
    assert t[|t| - 1] == s;
    CollapseStep(t, "..", allow);
  }

  /** The result of Normalize is a fixpoint of Normalize. */
  lemma NormalizeIdempotent(p: string)
    ensures Normalize(Normalize(p)) == Normalize(p)
  {
    if p != "" {
      var isAbsolute := p[0] == '/';
      var trailing := p[|p| - 1] == '/';
      var segs := Collapse([], Split(p), !isAbsolute);
      if segs == [] {
        SpecialFormsFixpoint();
      } else {
        NormalFormFixpoint(segs, isAbsolute, trailing);
      }
    } else {
      SpecialFormsFixpoint();
    }
  }

  /** The three results of Normalize that have no segment at all are fixpoints. */
  lemma SpecialFormsFixpoint()
    ensures Normalize("/") == "/"
    ensures Normalize("./") == "./"
    ensures Normalize(".") == "."
  {
    SplitAfterSegment("", "");
    assert "" + "/" + "" == "/";
    SplitNoSlash(".");
    SplitAfterSegment(".", "");
    assert "." + "/" + "" == "./";
  }

  /** The path written for a segment list splits back into it, root and trailing slash included. */
  lemma NormalFormSplit(segs: seq<string>, isAbsolute: bool, trailing: bool)
    requires segs != [] && Clean(segs, !isAbsolute)
    ensures var n := (if isAbsolute then "/" else "") + JoinSegments(segs) + (if trailing then "/" else "");
            && |n| > 0
            && (n[0] == '/' <==> isAbsolute)
            && (n[|n| - 1] == '/' <==> trailing)
            && Split(n) == (if isAbsolute then [""] else []) + segs + (if trailing then [""] else [])
  {
    CleanJoinEnds(segs, !isAbsolute);
    WrappedEnds(JoinSegments(segs), isAbsolute, trailing);
    WrappedSplit(segs, isAbsolute, trailing);
  }

  /** Joined clean segments neither start nor end with a slash. */
  lemma CleanJoinEnds(segs: seq<string>, allowAboveRoot: bool)
    requires segs != [] && Clean(segs, allowAboveRoot)
    ensures var j := JoinSegments(segs); |j| > 0 && j[0] != '/' && j[|j| - 1] != '/'
  {
    JoinSegmentsEnds(segs);
    var first, last := segs[0], segs[|segs| - 1];
    assert first[0] in first;
    assert last[|last| - 1] in last;
  }

  lemma WrappedEnds(j: string, isAbsolute: bool, trailing: bool)
    requires |j| > 0 && j[0] != '/' && j[|j| - 1] != '/'
    ensures var n := (if isAbsolute then "/" else "") + j + (if trailing then "/" else "");
            && |n| > 0
            && (n[0] == '/' <==> isAbsolute)
            && (n[|n| - 1] == '/' <==> trailing)
  {
  }

  lemma WrappedSplit(segs: seq<string>, isAbsolute: bool, trailing: bool)
    requires segs != [] && Clean(segs, !isAbsolute)
    ensures Split((if isAbsolute then "/" else "") + JoinSegments(segs) + (if trailing then "/" else ""))
         == (if isAbsolute then [""] else []) + segs + (if trailing then [""] else [])
  {
    var j := JoinSegments(segs);
    var n := (if isAbsolute then "/" else "") + j + (if trailing then "/" else "");
    var pre: seq<string> := if isAbsolute then [""] else [];
    var post: seq<string> := if trailing then [""] else [];
    var all := pre + segs + post;
    var front := JoinSegments(pre + segs);
    assert front == (if isAbsolute then "/" else "") + j by {
      if isAbsolute { JoinSegmentsCons("", segs); }
      else { assert pre + segs == segs; }
    }
    assert JoinSegments(all) == front + (if trailing then "/" else "") by {
      if trailing {
        JoinSegmentsSnoc(pre + segs, "");
        assert front + "/" + "" == front + "/";
      } else {
        assert all == pre + segs;
      }
    }
    assert forall i :: 0 <= i < |all| ==> '/' !in all[i] by {
      forall i | 0 <= i < |all| ensures '/' !in all[i] {
        if i < |pre| { assert all[i] == ""; }
        else if i < |pre| + |segs| { assert all[i] == segs[i - |pre|]; }
        else { assert all[i] == ""; }
      }
    }
    SplitJoin(all);
  }

  /** Collapsing the segments of a normal form gives back its clean segments. */
  lemma CollapseNormalForm(segs: seq<string>, isAbsolute: bool, trailing: bool)
    requires Clean(segs, !isAbsolute)
    ensures forall i :: 0 <= i < |segs| ==> '/' !in segs[i]
    ensures Collapse([], (if isAbsolute then [""] else []) + segs + (if trailing then [""] else []), !isAbsolute) == segs
  {
    var pre: seq<string> := if isAbsolute then [""] else [];
    var post: seq<string> := if trailing then [""] else [];
    assert [] + segs == segs;
    CollapseOfClean([], segs, !isAbsolute);
    assert pre + segs + post == pre + (segs + post);
    CollapseAppend([], pre, segs + post, !isAbsolute);
    assert Collapse([], pre, !isAbsolute) == [];
    CollapseAppend([], segs, post, !isAbsolute);
  }

  lemma NormalFormFixpoint(segs: seq<string>, isAbsolute: bool, trailing: bool)
    requires segs != [] && Clean(segs, !isAbsolute)
    ensures var n := (if isAbsolute then "/" else "") + JoinSegments(segs) + (if trailing then "/" else "");
            Normalize(n) == n
  {
    NormalFormSplit(segs, isAbsolute, trailing);
    CollapseNormalForm(segs, isAbsolute, trailing);
  }

  /**
    The shape of a normalised path: ".", "./" or "/", or else a clean list of
    segments between an optional root slash and an optional trailing slash.
  */
  ghost predicate InNormalForm(r: string) {
    && r != ""
    && (r == "." || r == "./" || r == "/" ||
        var isAbsolute := r[0] == '/';
        var trailing := r[|r| - 1] == '/';
        var sp := Split(r);
        var lo := if isAbsolute then 1 else 0;
        var hi := |sp| - (if trailing then 1 else 0);
        lo < hi && Clean(sp[lo..hi], !isAbsolute))
  }

  lemma NormalizeInNormalForm(p: string)
    ensures InNormalForm(Normalize(p))
  {
    if p != "" {
      var isAbsolute := p[0] == '/';
      var trailing := p[|p| - 1] == '/';
      var segs := Collapse([], Split(p), !isAbsolute);
      if segs != [] {
        NormalFormSplit(segs, isAbsolute, trailing);
        var sp := Split(Normalize(p));
        var lo := if isAbsolute then 1 else 0;
        assert sp[lo..|sp| - (if trailing then 1 else 0)] == segs;
      }
    }
  }

  lemma PathJoinIsNormal(a: string, b: string)
    ensures Normalize(PathJoin(a, b)) == PathJoin(a, b)
  {
    var joined := if a == "" then b else if b == "" then a else a + "/" + b;
    if joined == "" {
      SpecialFormsFixpoint();
    } else {
      NormalizeIdempotent(joined);
    }
  }

  lemma PathJoinInNormalForm(a: string, b: string)
    ensures InNormalForm(PathJoin(a, b))
  {
    var joined := if a == "" then b else if b == "" then a else a + "/" + b;
    if joined != "" {
      NormalizeInNormalForm(joined);
    }
  }

  // ---------------------------------------------------------------------------
  // Lemmas: resolution against the importer's directory
  // ---------------------------------------------------------------------------

  /** A name that is neither empty, nor ".", nor "..", and has no slash. */
  predicate PlainName(n: string) {
    n != "" && n != "." && n != ".." && '/' !in n
  }

  /** A relative path without empty segments normalises to its collapsed segments. */
  lemma NormalizeRelative(segs: seq<string>)
    requires segs != [] && forall i :: 0 <= i < |segs| ==> segs[i] != "" && '/' !in segs[i]
    requires Collapse([], segs, true) != []
    ensures Normalize(JoinSegments(segs)) == JoinSegments(Collapse([], segs, true))
  {
    var p := JoinSegments(segs);
    var first, last := segs[0], segs[|segs| - 1];
    assert p != "" && p[0] != '/' && p[|p| - 1] != '/' by {
      JoinSegmentsEnds(segs);
      assert first[0] in first;
      assert last[|last| - 1] in last;
    }
    assert Split(p) == segs by {
      SplitJoin(segs);
    }
    var collapsed := Collapse([], segs, true);
    assert Collapse([], Split(p), !(p[0] == '/')) == collapsed;
    var c := JoinSegments(collapsed);
    assert Normalize(p) == (if p[0] == '/' then "/" else "") + c + (if p[|p| - 1] == '/' then "/" else "");
    assert "" + c + "" == c;
  }

  /** A specifier starting with "." names no scheme and no host. */
  lemma DotIsRelative(spec: string)
    requires |spec| > 0 && spec[0] == '.'
    ensures IsRelativeUrl(spec)
  {
  }

  /**
    Resolution read through segments: when the importer's directory, a slash
    and the specifier spell out the segments `segs`, the result is `segs`
    collapsed and joined again.
  */
  lemma ResolveBySegments(base: string, spec: string, segs: seq<string>)
    requires IsRelativeUrl(spec) && Dirname(base) != "" && spec != ""
    requires Dirname(base) + "/" + spec == JoinSegments(segs)
    requires segs != [] && forall i :: 0 <= i < |segs| ==> segs[i] != "" && '/' !in segs[i]
    requires Collapse([], segs, true) != []
    ensures Resolve(base, spec) == Some(JoinSegments(Collapse([], segs, true)))
  {
    NormalizeRelative(segs);
  }

  /** The collapse of a clean directory followed by more segments continues from the directory. */
  lemma CollapseAfterDirectory(dsegs: seq<string>, more: seq<string>)
    requires Clean(dsegs, true) && forall i :: 0 <= i < |more| ==> '/' !in more[i]
    ensures Collapse([], dsegs + more, true) == Collapse(dsegs, more, true)
  {
    CollapseOfClean([], dsegs, true);
    assert [] + dsegs == dsegs;
    CollapseAppend([], dsegs, more, true);
  }

  /** Directory, then ".", then a name: the name lands in the directory. */
  lemma CollapseDown(dsegs: seq<string>, n: string)
    requires Clean(dsegs, true) && PlainName(n)
    ensures Collapse([], dsegs + [".", n], true) == dsegs + [n]
  {
    CollapseAfterDirectory(dsegs, [".", n]);
    CollapseAppend(dsegs, ["."], [n], true);
    assert ["."] + [n] == [".", n];
    CollapseStep(dsegs, ".", true);
    CollapseStep(dsegs, n, true);
  }

  /** Directory, then "..", then a name: the name replaces the directory's last segment. */
  lemma CollapseUp(up: seq<string>, last: string, n: string)
    requires Clean(up + [last], true) && last != ".." && PlainName(n)
    ensures Collapse([], up + [last] + ["..", n], true) == up + [n]
  {
    calc {
      Collapse([], up + [last] + ["..", n], true);
    == { CollapseAfterDirectory(up + [last], ["..", n]); }
      Collapse(up + [last], ["..", n], true);
    == { assert [".."] + [n] == ["..", n]; CollapseAppend(up + [last], [".."], [n], true); }
      Collapse(Collapse(up + [last], [".."], true), [n], true);
    == { CollapsePop(up, last, true); }
      Collapse(up, [n], true);
    == { CollapseOfClean(up, [last], true); CollapseStep(up, n, true); }
      up + [n];
    }
  }

  /** From a chunk in directory `d`, "./n" names `d/n`. */
  lemma ResolveDown(base: string, dsegs: seq<string>, n: string)
    requires dsegs != [] && Clean(dsegs, true) && Dirname(base) == JoinSegments(dsegs)
    requires PlainName(n)
    ensures Resolve(base, "./" + n) == Some(JoinSegments(dsegs) + "/" + n)
  {
    var d := JoinSegments(dsegs);
    DotIsRelative("./" + n);
    JoinSegmentsSnoc(dsegs, ".");
    JoinSegmentsSnoc(dsegs + ["."], n);
    assert dsegs + ["."] + [n] == dsegs + [".", n];
    assert d + "/" + ("./" + n) == d + "/" + "." + "/" + n;
    CollapseDown(dsegs, n);
    ResolveBySegments(base, "./" + n, dsegs + [".", n]);
    JoinSegmentsSnoc(dsegs, n);
  }

  /** From a chunk in directory `d/e`, "../n" names `d/n`, or just `n` when `e` is the top. */
  lemma ResolveUp(base: string, dsegs: seq<string>, n: string)
    requires dsegs != [] && Clean(dsegs, true) && Dirname(base) == JoinSegments(dsegs)
    requires dsegs[|dsegs| - 1] != ".." && PlainName(n)
    ensures var up := dsegs[..|dsegs| - 1];
            Resolve(base, "../" + n) == Some(if up == [] then n else JoinSegments(up) + "/" + n)
  {
    var d := JoinSegments(dsegs);
    var up := dsegs[..|dsegs| - 1];
    DotIsRelative("../" + n);
    JoinSegmentsSnoc(dsegs, "..");
    JoinSegmentsSnoc(dsegs + [".."], n);
    assert dsegs + [".."] + [n] == dsegs + ["..", n];
    assert d + "/" + ("../" + n) == d + "/" + ".." + "/" + n;
    assert dsegs == up + [dsegs[|dsegs| - 1]];
    CollapseUp(up, dsegs[|dsegs| - 1], n);
    ResolveBySegments(base, "../" + n, dsegs + ["..", n]);
    if up != [] {
      JoinSegmentsSnoc(up, n);
    }
  }

  /** From a chunk in directory `d`, a bare relative name `n` also names `d/n`. */
  lemma ResolveBare(base: string, dsegs: seq<string>, n: string)
    requires dsegs != [] && Clean(dsegs, true) && Dirname(base) == JoinSegments(dsegs)
    requires PlainName(n) && IsRelativeUrl(n)
    ensures Resolve(base, n) == Some(JoinSegments(dsegs) + "/" + n)
  {
    JoinSegmentsSnoc(dsegs, n);
    assert Clean(dsegs + [n], true);
    CollapseOfClean([], dsegs + [n], true);
    assert [] + (dsegs + [n]) == dsegs + [n];
    ResolveBySegments(base, n, dsegs + [n]);
  }

  /** At the top, a leading "." segment is dropped. */
  lemma CollapseFromTop(more: seq<string>)
    requires forall i :: 0 <= i < |more| ==> '/' !in more[i]
    ensures Collapse([], ["."] + more, true) == Collapse([], more, true)
  {
    CollapseAppend([], ["."], more, true);
    CollapseStep([], ".", true);
  }

  /** At the top, "." segments before a name vanish. */
  lemma CollapseDownFromTop(n: string)
    requires PlainName(n)
    ensures Collapse([], [".", n], true) == [n]
    ensures Collapse([], [".", ".", n], true) == [n]
  {
    assert [".", ".", n][1..] == [".", n] && [".", n][1..] == [n] && [n][1..] == [];
    assert Collapse([], [n], true) == Collapse([] + [n], [], true);
    assert [] + [n] == [n];
  }

  /** At the top, ".." before a name is kept: a relative path may climb. */
  lemma CollapseUpFromTop(n: string)
    requires PlainName(n)
    ensures Collapse([], [".", "..", n], true) == ["..", n]
  {
    CollapseStep([], "..", true);
    CollapseStep([".."], n, true);
    CollapseAppend([], [".."], [n], true);
    assert [".."] + [n] == ["..", n] && [] + [".."] == [".."];
    CollapseFromTop(["..", n]);
    assert ["."] + ["..", n] == [".", "..", n];
  }

  /** From a chunk at the top of the bundle, "./n" names `n`. */
  lemma ResolveDownFromTop(base: string, n: string)
    requires Dirname(base) == "." && PlainName(n)
    ensures Resolve(base, "./" + n) == Some(n)
  {
    CollapseDownFromTop(n);
    DotIsRelative("./" + n);
    JoinSegmentsCons(".", [n]);
    JoinSegmentsCons(".", [".", n]);
    assert "." + "/" + ("./" + n) == JoinSegments([".", ".", n]);
    ResolveBySegments(base, "./" + n, [".", ".", n]);
  }

  /** From a chunk at the top of the bundle, a bare relative name `n` names `n` too. */
  lemma ResolveBareFromTop(base: string, n: string)
    requires Dirname(base) == "." && PlainName(n) && IsRelativeUrl(n)
    ensures Resolve(base, n) == Some(n)
  {
    CollapseDownFromTop(n);
    JoinSegmentsCons(".", [n]);
    ResolveBySegments(base, n, [".", n]);
  }

  /** From a chunk at the top of the bundle, "../n" climbs above it to `../n`. */
  lemma ResolveUpFromTop(base: string, n: string)
    requires Dirname(base) == "." && PlainName(n)
    ensures Resolve(base, "../" + n) == Some("../" + n)
  {
    CollapseUpFromTop(n);
    DotIsRelative("../" + n);
    JoinSegmentsCons(".", ["..", n]);
    assert "." + "/" + ("../" + n) == JoinSegments([".", "..", n]);
    ResolveBySegments(base, "../" + n, [".", "..", n]);
    assert JoinSegments(["..", n]) == "../" + n;
  }

  /** ".." cancels a plain segment before it: `a/../b` normalises to `b`. */
  lemma NormalizeCancels(a: string, b: string)
    requires PlainName(a) && PlainName(b)
    ensures Normalize(a + "/../" + b) == b
  {
    var segs := [a, "..", b];
    JoinSegmentsCons(a, ["..", b]);
    JoinSegmentsCons("..", [b]);
    assert a + "/../" + b == JoinSegments(segs);
    calc {
      Collapse([], segs, true);
    == { assert [a] + ["..", b] == segs; CollapseAppend([], [a], ["..", b], true); }
      Collapse(Collapse([], [a], true), ["..", b], true);
    == { CollapseStep([], a, true); assert [] + [a] == [a]; }
      Collapse([a], ["..", b], true);
    == { assert [".."] + [b] == ["..", b]; CollapseAppend([a], [".."], [b], true); }
      Collapse(Collapse([a], [".."], true), [b], true);
    == { CollapsePop([], a, true); }
      Collapse([], [b], true);
    == { CollapseStep([], b, true); }
      [b];
    }
    NormalizeRelative(segs);
  }

  /** `path.normalize("a/../b")` is "b". */
  lemma NormalizePopExample()
    ensures Normalize("a/../b") == "b"
  {
    NormalizeCancels("a", "b");
    assert "a" + "/../" + "b" == "a/../b";
  }

  /** A chunk in a subdirectory resolves "./n" within that directory. */
  lemma ResolveDownExample()
    ensures Resolve("d/x", "./n") == Some("d/n")
  {
    assert Dirname("d/x") == "d" by {
      DirnameLastSeparator("d/x");
      assert LastSeparator("d/x", 1);
    }
    assert JoinSegments(["d"]) == "d";
    ResolveDown("d/x", ["d"], "n");
    assert "./" + "n" == "./n" && "d" + "/" + "n" == "d/n";
  }

  /** From a chunk in directory `a/b`, "../n" names `a/n`. */
  lemma ResolveUpOneLevel(base: string, a: string, b: string, n: string)
    requires PlainName(a) && PlainName(b) && PlainName(n)
    requires Dirname(base) == a + "/" + b
    ensures Resolve(base, "../" + n) == Some(a + "/" + n)
  {
    JoinSegmentsCons(a, [b]);
    assert JoinSegments([a]) == a;
    assert Clean([a, b], true);
    ResolveUp(base, [a, b], n);
    assert [a, b][..1] == [a];
  }

  /** A chunk two levels down resolves "../n" in the directory above its own. */
  lemma ResolveUpExample()
    ensures Resolve("d/e/x", "../n") == Some("d/n")
  {
    assert Dirname("d/e/x") == "d" + "/" + "e" by {
      DirnameLastSeparator("d/e/x");
      assert LastSeparator("d/e/x", 3);
    }
    ResolveUpOneLevel("d/e/x", "d", "e", "n");
    assert "../" + "n" == "../n" && "d" + "/" + "n" == "d/n";
  }

  // ---------------------------------------------------------------------------
  // Examples from the repository's tests
  // ---------------------------------------------------------------------------

  /** `resolveImport("a", "./b")` and `resolveImport("a", "b")` both give "b". */
  lemma ResolveSiblingExamples()
    ensures Resolve("a", "./b") == Some("b")
    ensures Resolve("a", "b") == Some("b")
  {
    assert Dirname("a") == ".";
    assert SchemeColon("b") == None;
    ResolveDownFromTop("a", "b");
    assert "./" + "b" == "./b";
    ResolveBareFromTop("a", "b");
  }

  /** A URL with a host of its own is external. */
  lemma ResolveExternalExample()
    ensures Resolve("a", "https://esm.run/react") == None
  {
    var url := "https://esm.run/react";
    assert url[1] == 't' && url[2] == 't' && url[3] == 'p' && url[4] == 's' && url[5] == ':';
    assert ScanScheme(url, 5) == Some(5);
    assert ScanScheme(url, 1) == Some(5);
    assert StartsWithAuthority(url[6..]) by {
      assert url[6] == '/' && url[7] == '/';
    }
  }

  /** A bare package name counts as relative and is joined like a path. */
  lemma ResolveBareNameExample()
    ensures Resolve("a", "path") == Some("path")
  {
    assert Dirname("a") == ".";
    assert SchemeColon("path") == None by {
      assert ScanScheme("path", 4) == None;
    }
    ResolveBareFromTop("a", "path");
  }
}
