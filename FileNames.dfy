/** Which files of a folder are processed, and what their outputs are called.

    A file is a candidate when its lower-cased name ends with one of the supported
    extensions; the preview takes the first candidate in listing order and the batch
    takes all of them, in order. The output name inserts `_wm` between the stem and the
    extension that `os.path.splitext` finds. Names and paths are POSIX ones. */
module FileNames {
  import opened Outcomes

  /** `str.lower` on one character, for the ASCII letters. */
  function LowerChar(c: char): char {
    if 'A' <= c <= 'Z' then (c as int - 'A' as int + 'a' as int) as char else c
  }

  function Lower(s: string): (r: string)
    ensures |r| == |s|
    ensures forall i :: 0 <= i < |s| ==> r[i] == LowerChar(s[i])
  {
    if s == [] then [] else [LowerChar(s[0])] + Lower(s[1..])
  }

  predicate EndsWith(s: string, suffix: string) {
    |suffix| <= |s| && s[|s| - |suffix|..] == suffix
  }

  /** The extensions the application accepts. */
  const SupportedExt: seq<string> := [".jpg", ".jpeg", ".png", ".tiff", ".bmp"]

  /** `str.endswith` with a tuple argument: some suffix of the tuple matches. */
  predicate EndsWithAny(s: string, suffixes: seq<string>)
  {
    suffixes != [] && (EndsWith(s, suffixes[0]) || EndsWithAny(s, suffixes[1..]))
  }

  /** `EndsWithAny` holds exactly when one of the suffixes matches. */
  lemma {:induction false} EndsWithAnyExists(s: string, suffixes: seq<string>)
    ensures EndsWithAny(s, suffixes) <==> exists i :: 0 <= i < |suffixes| && EndsWith(s, suffixes[i])
  {
    if suffixes != [] {
      EndsWithAnyExists(s, suffixes[1..]);
      if EndsWithAny(s, suffixes[1..]) {
        var i :| 0 <= i < |suffixes[1..]| && EndsWith(s, suffixes[1..][i]);
        assert EndsWith(s, suffixes[i + 1]);
      }
      if exists i :: 0 <= i < |suffixes| && EndsWith(s, suffixes[i]) {
        var i :| 0 <= i < |suffixes| && EndsWith(s, suffixes[i]);
        if i > 0 {
          assert EndsWith(s, suffixes[1..][i - 1]);
        }
      }
    }
  }

  /** `fname.lower().endswith(SUPPORTED_EXT)`. */
  predicate IsSupported(name: string) {
    EndsWithAny(Lower(name), SupportedExt)
  }

  /** A name is a candidate exactly when its lower-cased form ends with one of the
      supported extensions. */
  lemma IsSupportedMeans(name: string)
    ensures IsSupported(name) <==>
      exists i :: 0 <= i < |SupportedExt| && EndsWith(Lower(name), SupportedExt[i])
  {
    EndsWithAnyExists(Lower(name), SupportedExt);
  }

  /** The test ignores the case of the name. */
  lemma SupportedIgnoresCase(a: string, b: string)
    requires Lower(a) == Lower(b)
    ensures IsSupported(a) <==> IsSupported(b)
  {
  }

  /** The batch list: the supported names of the listing, in listing order. */
  function Candidates(listing: seq<string>): (c: seq<string>)
    ensures |c| <= |listing|
  {
    if listing == [] then []
    else (if IsSupported(listing[0]) then [listing[0]] else []) + Candidates(listing[1..])
  }

  /** The batch list holds exactly the supported names of the listing. */
  lemma {:induction false} CandidatesMembers(listing: seq<string>, f: string)
    ensures f in Candidates(listing) <==> f in listing && IsSupported(f)
  {
    if listing != [] {
      CandidatesMembers(listing[1..], f);
      assert listing == [listing[0]] + listing[1..];
    }
  }

  /** Filtering distributes over concatenation, so the relative order of the kept names is
      the order of the listing. */
  lemma {:induction false} CandidatesAppend(a: seq<string>, b: seq<string>)
    ensures Candidates(a + b) == Candidates(a) + Candidates(b)
  {
    if a == [] {
      assert a + b == b;
    } else {
      assert (a + b)[1..] == a[1..] + b;
      CandidatesAppend(a[1..], b);
    }
  }

  /** Filtering a list that was already filtered changes nothing. */
  lemma {:induction false} CandidatesIdempotent(listing: seq<string>)
    ensures Candidates(Candidates(listing)) == Candidates(listing)
  {
    if listing != [] {
      CandidatesIdempotent(listing[1..]);
      var head := if IsSupported(listing[0]) then [listing[0]] else [];
      CandidatesAppend(head, Candidates(listing[1..]));
      if IsSupported(listing[0]) {
        assert Candidates(head) == head by {
          assert head[1..] == [];
        }
      }
    }
  }

  /** Every supported extension ends in `g`, `f` or `p`, so a name ending in any other
      letter, whatever its case, is not a candidate. */
  lemma UnsupportedByLastChar(name: string)
    requires name != [] && LowerChar(name[|name| - 1]) !in {'g', 'f', 'p'}
    ensures !IsSupported(name)
  {
    var l := Lower(name);
    forall i | 0 <= i < |SupportedExt|
      ensures !EndsWith(l, SupportedExt[i])
    {
      var e := SupportedExt[i];
      assert e[|e| - 1] in {'g', 'f', 'p'};
    }
    EndsWithAnyExists(l, SupportedExt);
  }

  /** Upper-case extensions are accepted; other extensions are not. */
  lemma ExampleNamesClassified()
    ensures IsSupported("a.JPG") && IsSupported("b.png") && IsSupported("c.Tiff")
    ensures !IsSupported("notes.txt") && !IsSupported("clip.mov")
  {
    UpperJpgSupported();
    PngSupported();
    MixedTiffSupported();
    UnsupportedByLastChar("notes.txt");
    UnsupportedByLastChar("clip.mov");
  }

  lemma UpperJpgSupported()
    ensures IsSupported("a.JPG")
  {
    assert Lower("a.JPG") == "a.jpg";
    assert EndsWith(Lower("a.JPG"), SupportedExt[0]);
  }

  lemma PngSupported()
    ensures IsSupported("b.png")
  {
    assert Lower("b.png") == "b.png";
    assert EndsWith(Lower("b.png"), SupportedExt[2]);
    assert EndsWithAny(Lower("b.png"), SupportedExt[2..]);
  }

  lemma MixedTiffSupported()
    ensures IsSupported("c.Tiff")
  {
    assert Lower("c.Tiff") == "c.tiff";
    assert EndsWith(Lower("c.Tiff"), SupportedExt[3]);
    assert EndsWithAny(Lower("c.Tiff"), SupportedExt[3..]);
  }

  /** Rejected names drop out of the batch list and accepted ones keep their order. */
  lemma CandidatesInterleaved(a: string, n: string, b: string, m: string, c: string)
    requires IsSupported(a) && IsSupported(b) && IsSupported(c)
    requires !IsSupported(n) && !IsSupported(m)
    ensures Candidates([a, n, b, m, c]) == [a, b, c]
  {
    var l := [a, n, b, m, c];
    assert l[4..][1..] == [];
    assert Candidates(l[4..]) == [c];
    assert l[3..][1..] == l[4..];
    assert l[2..][1..] == l[3..];
    assert Candidates(l[2..]) == [b, c];
    assert l[1..][1..] == l[2..];
  }

  /** A listing with three photos and two other files yields the three photos, in order. */
  lemma CandidatesExample()
    ensures Candidates(["a.JPG", "notes.txt", "b.png", "clip.mov", "c.Tiff"]) == ["a.JPG", "b.png", "c.Tiff"]
  {
    ExampleNamesClassified();
    CandidatesInterleaved("a.JPG", "notes.txt", "b.png", "clip.mov", "c.Tiff");
  }

  /** The `for ... else` search of the preview: the first candidate of the listing, or
      nothing when the listing has none. */
  method FirstCandidate(listing: seq<string>) returns (first: Option<string>)
    ensures first.None? <==> Candidates(listing) == []
    ensures first.Some? ==> first.value == Candidates(listing)[0]
    ensures first.Some? ==>
      exists i :: 0 <= i < |listing| && listing[i] == first.value && IsSupported(first.value) &&
        forall j :: 0 <= j < i ==> !IsSupported(listing[j])
  {
    for i := 0 to |listing|
      invariant Candidates(listing[..i]) == []
      invariant forall j :: 0 <= j < i ==> !IsSupported(listing[j])
    {
      if IsSupported(listing[i]) {
        assert listing == listing[..i] + listing[i..];
        CandidatesAppend(listing[..i], listing[i..]);
        return Some(listing[i]);
      }
      assert listing[..i + 1] == listing[..i] + [listing[i]];
      CandidatesAppend(listing[..i], [listing[i]]);
    }
    assert listing[..|listing|] == listing;
    return None;
  }

  /** `str.rfind` for one character: the last index holding `c`, or -1. */
  function RFind(s: string, c: char): (i: int)
    ensures -1 <= i < |s|
    ensures 0 <= i ==> s[i] == c
    ensures forall k :: i < k < |s| ==> s[k] != c
  {
    if s == [] then -1
    else if s[|s| - 1] == c then |s| - 1
    else RFind(s[..|s| - 1], c)
  }

  /** The properties of RFind pin its result down. */
  lemma RFindIs(s: string, c: char, i: int)
    requires -1 <= i < |s|
    requires 0 <= i ==> s[i] == c
    requires forall k :: i < k < |s| ==> s[k] != c
    ensures RFind(s, c) == i
  {
  }

  /** The last occurrence in a concatenation is in the second part if it has one. */
  lemma RFindConcat(a: string, b: string, c: char)
    ensures RFind(a + b, c) == if RFind(b, c) >= 0 then |a| + RFind(b, c) else RFind(a, c)
  {
    var i := if RFind(b, c) >= 0 then |a| + RFind(b, c) else RFind(a, c);
    assert forall k :: |a| <= k < |a + b| ==> (a + b)[k] == b[k - |a|];
    assert forall k :: 0 <= k < |a| ==> (a + b)[k] == a[k];
    RFindIs(a + b, c, i);
  }

  /** `os.path.splitext`: the extension starts at the last dot after the last separator,
      provided some character other than a dot precedes that dot in the last component;
      otherwise the extension is empty. */
  function SplitExt(p: string): (r: (string, string))
    ensures r.0 + r.1 == p
    ensures r.1 == [] || (r.1[0] == '.' && '.' !in r.1[1..] && '/' !in r.1)
    ensures r.1 != [] ==> exists k :: RFind(p, '/') < k < |r.0| && p[k] != '.'
  {
    var dot := RFind(p, '.');
    var sep := RFind(p, '/');
    if dot > sep && exists k :: sep < k < dot && p[k] != '.' then (p[..dot], p[dot..]) else (p, [])
  }

  /** A name made of a stem and an extension splits back into the two, provided the stem's
      last component has a character other than a dot. */
  lemma SplitExtOfParts(stem: string, ext: string)
    requires ext != [] && ext[0] == '.' && '.' !in ext[1..] && '/' !in ext
    requires exists k :: RFind(stem, '/') < k < |stem| && stem[k] != '.'
    ensures SplitExt(stem + ext) == (stem, ext)
  {
    var p := stem + ext;
    assert forall k :: 0 < k < |ext| ==> ext[k] == ext[1..][k - 1];
    RFindIs(ext, '.', 0);
    RFindIs(ext, '/', -1);
    RFindConcat(stem, ext, '.');
    RFindConcat(stem, ext, '/');
    var k :| RFind(stem, '/') < k < |stem| && stem[k] != '.';
    assert p[k] == stem[k];
    assert p[..|stem|] == stem && p[|stem|..] == ext;
  }

  /** For a bare name whose last dot has a non-dot character somewhere before it, the
      extension is everything from that dot on. */
  lemma SplitAtLastDot(f: string, i: nat)
    requires '/' !in f
    requires i < |f| && f[i] == '.' && '.' !in f[i + 1..]
    requires exists k :: 0 <= k < i && f[k] != '.'
    ensures SplitExt(f) == (f[..i], f[i..])
  {
    assert forall k :: i < k < |f| ==> f[k] == f[i + 1..][k - i - 1];
    assert RFind(f, '.') == i;
  }

  /** Names without a usable extension: none at all, a dot file, or only dots before the last dot. */
  lemma SplitExtExamples()
    ensures SplitExt("photo") == ("photo", "")
    ensures SplitExt(".png") == (".png", "")
    ensures SplitExt("..png") == ("..png", "")
    ensures SplitExt("a.tar.gz") == ("a.tar", ".gz")
  {
    RFindIs("photo", '.', -1);
    RFindIs(".png", '.', 0);
    RFindIs("..png", '.', 1);
    RFindIs("a.tar.gz", '.', 5);
    RFindIs("a.tar.gz", '/', -1);
    assert "a.tar.gz"[0] != '.';
    assert "a.tar.gz"[..5] == "a.tar" && "a.tar.gz"[5..] == ".gz";
  }

  /** The output file name: `stem + "_wm" + ext`. */
  function OutputName(f: string): string {
    var (stem, ext) := SplitExt(f);
    stem + "_wm" + ext
  }

  /** Splitting an output name gives back the source stem with `_wm` appended and the
      source extension, whatever the source name. */
  lemma OutputNameSplits(f: string)
    ensures SplitExt(OutputName(f)) == (SplitExt(f).0 + "_wm", SplitExt(f).1)
  {
    if SplitExt(f).1 != [] {
      OutputNameSplitsAtDot(f);
    } else {
      OutputNameSplitsBare(f);
    }
  }

  lemma OutputNameSplitsAtDot(f: string)
    requires SplitExt(f).1 != []
    ensures SplitExt(OutputName(f)) == (SplitExt(f).0 + "_wm", SplitExt(f).1)
  {
    var (stem, ext) := SplitExt(f);
    RFindIs("_wm", '/', -1);
    RFindConcat(stem, "_wm", '/');
    RFindIs(ext, '/', -1);
    RFindConcat(stem, ext, '/');
    var k :| RFind(f, '/') < k < |stem| && f[k] != '.';
    assert (stem + "_wm")[k] == stem[k] == f[k];
    SplitExtOfParts(stem + "_wm", ext);
  }

  lemma OutputNameSplitsBare(f: string)
    requires SplitExt(f).1 == []
    ensures SplitExt(OutputName(f)) == (f + "_wm", [])
  {
    var o := OutputName(f);
    assert o == f + "_wm";
    assert forall k :: 0 <= k < |f| ==> o[k] == f[k];
    assert RFind(o, '.') == RFind(f, '.');
    assert RFind(o, '/') == RFind(f, '/');
  }

  /** For a bare name with a non-dot character before its last dot, the output name begins
      with the original stem, then `_wm`, and ends with the original extension. */
  lemma OutputNameStemAndExt(f: string, i: nat)
    requires '/' !in f
    requires i < |f| && f[i] == '.' && '.' !in f[i + 1..]
    requires exists k :: 0 <= k < i && f[k] != '.'
    ensures OutputName(f) == f[..i] + "_wm" + f[i..]
    ensures OutputName(f)[..i] == f[..i]
    ensures EndsWith(OutputName(f), f[i..])
  {
    SplitAtLastDot(f, i);
    var o := OutputName(f);
    assert o == f[..i] + "_wm" + f[i..];
    assert o[|o| - |f[i..]|..] == f[i..];
  }

  /** Recovers the source name from an output name. */
  function SourceName(o: string): Option<string> {
    var (stem, ext) := SplitExt(o);
    if EndsWith(stem, "_wm") then Some(stem[..|stem| - 3] + ext) else None
  }

  /** Naming round trip: the source name is recoverable from its output name, so distinct
      sources never share an output file. */
  lemma OutputNameRoundTrip(f: string)
    ensures SourceName(OutputName(f)) == Some(f)
  {
    OutputNameSplits(f);
    var (stem, ext) := SplitExt(f);
    assert (stem + "_wm")[..|stem|] == stem;
  }

  lemma OutputNameInjective(f: string, g: string)
    requires OutputName(f) == OutputName(g)
    ensures f == g
  {
    OutputNameRoundTrip(f);
    OutputNameRoundTrip(g);
  }

  /** A bare name gives a bare output name. */
  lemma OutputNameBare(f: string)
    requires '/' !in f
    ensures '/' !in OutputName(f)
  {
    var (stem, ext) := SplitExt(f);
    assert forall k :: 0 <= k < |stem| ==> stem[k] == f[k];
    assert forall k :: 0 <= k < |ext| ==> ext[k] == f[|stem| + k];
  }

  /** A file literally named `.png` passes the filter, but its output name has no extension. */
  lemma DotFileLosesExtension()
    ensures IsSupported(".png")
    ensures OutputName(".png") == ".png_wm" && SplitExt(OutputName(".png")).1 == ""
  {
    assert EndsWith(Lower(".png"), SupportedExt[2]);
    SplitExtExamples();
    OutputNameSplits(".png");
  }

  /** `posixpath.join` of two components. */
  function Join(dir: string, name: string): string
  {
    if name != [] && name[0] == '/' then name
    else if dir == [] || dir[|dir| - 1] == '/' then dir + name
    else dir + "/" + name
  }

  /** The joined path ends with the name; an absolute name replaces the directory, and a
      relative one is appended to it. */
  lemma JoinShape(dir: string, name: string)
    ensures EndsWith(Join(dir, name), name)
    ensures name != [] && name[0] == '/' ==> Join(dir, name) == name
    ensures (name == [] || name[0] != '/') ==>
      |dir| <= |Join(dir, name)| && Join(dir, name)[..|dir|] == dir
  {
    var p := Join(dir, name);
    if name == [] || name[0] != '/' {
      var pre := if dir == [] || dir[|dir| - 1] == '/' then dir else dir + "/";
      assert p == pre + name;
      assert p[|p| - |name|..] == name;
      assert p[..|dir|] == pre[..|dir|];
    }
  }

  /** In one directory, relative names give distinct paths. */
  lemma JoinInjective(dir: string, a: string, b: string)
    requires a == [] || a[0] != '/'
    requires b == [] || b[0] != '/'
    requires Join(dir, a) == Join(dir, b)
    ensures a == b
  {
    var pre := if dir == [] || dir[|dir| - 1] == '/' then dir else dir + "/";
    assert Join(dir, a) == pre + a && Join(dir, b) == pre + b;
    assert a == (pre + a)[|pre|..];
    assert b == (pre + b)[|pre|..];
  }
}
