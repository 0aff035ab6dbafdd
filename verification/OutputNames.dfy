/** Output file names of the example runner, and the prefix lookup that finds them again. */
module OutputNames {
  import opened Common

  // ----- script paths

  predicate StartsWith(s: string, prefix: string) {
    prefix <= s
  }

  predicate EndsWith(s: string, suffix: string) {
    |suffix| <= |s| && s[|s| - |suffix|..] == suffix
  }

  function ReplaceSlashes(s: string): string {
    if s == "" then ""
    else (if s[0] == '/' then "__" else [s[0]]) + ReplaceSlashes(s[1..])
  }

  function RemovePy(s: string): string {
    if s == "" then ""
    else if StartsWith(s, ".py") then RemovePy(s[3..])
    else [s[0]] + RemovePy(s[1..])
  }

  /** `s.split("__")`: cut at the leftmost non-overlapping separators. */
  function Split(s: string): (parts: seq<string>)
    ensures parts != []
  {
    if s == "" then [""]
    else if StartsWith(s, "__") then [""] + Split(s[2..])
    else
      var rest := Split(s[1..]);
      [[s[0]] + rest[0]] + rest[1..]
  }

  function Join(parts: seq<string>): string
    requires parts != []
  {
    if |parts| == 1 then parts[0] else parts[0] + "__" + Join(parts[1..])
  }

  function Slug(script: string): string {
    RemovePy(ReplaceSlashes(script))
  }

  function ParseScriptPath(script: string): (string, string) {
    var parts := Split(Slug(script));
    if |parts| >= 2 then (parts[0], Join(parts[1..])) else ("unknown", parts[0])
  }

  ghost predicate Contains(s: string, t: string) {
    exists i :: 0 <= i <= |s| && StartsWith(s[i..], t)
  }

  lemma {:induction false} JoinSplit(s: string)
    ensures Join(Split(s)) == s
  {
    if s == "" {
    } else if StartsWith(s, "__") {
      JoinSplit(s[2..]);
      assert ([""] + Split(s[2..]))[1..] == Split(s[2..]);
      assert s == "__" + s[2..];
    } else {
      JoinSplit(s[1..]);
      JoinFirst(s[0], Split(s[1..]));
      assert s == [s[0]] + s[1..];
    }
  }

  lemma JoinFirst(c: char, parts: seq<string>)
    requires parts != []
    ensures Join([[c] + parts[0]] + parts[1..]) == [c] + Join(parts)
  {
    var longer := [[c] + parts[0]] + parts[1..];
    assert longer[1..] == parts[1..];
  }

  lemma {:induction false} SplitCuts(s: string)
    ensures |Split(s)| >= 2 <==> Contains(s, "__")
  {
    if s == "" {
      assert forall i :: 0 <= i <= |s| ==> s[i..] == "";
    } else if StartsWith(s, "__") {
      assert s[0..] == s;
    } else {
      SplitCuts(s[1..]);
      if Contains(s[1..], "__") {
        var i :| 0 <= i <= |s[1..]| && StartsWith(s[1..][i..], "__");
        assert s[1..][i..] == s[i + 1..];
      }
      if Contains(s, "__") {
        var i :| 0 <= i <= |s| && StartsWith(s[i..], "__");
        assert s[0..] == s;
        assert s[1..][i - 1..] == s[i..];
      }
    }
  }

  /** Directory and name rebuild the slug exactly when the slug has a separator; otherwise the
      whole slug is the name of an "unknown" directory. */
  lemma ParseRebuilds(script: string)
    ensures
      var (dir, name) := ParseScriptPath(script);
      && (Contains(Slug(script), "__") ==> dir + "__" + name == Slug(script))
      && (!Contains(Slug(script), "__") ==> dir == "unknown" && name == Slug(script))
  {
    JoinSplit(Slug(script));
    SplitCuts(Slug(script));
  }

  /** A text from which removing ".py" gives `t` back. */
  function Padded(t: string): string {
    if t == "" then ""
    else if StartsWith(t, ".py") then ".p" + ".py" + "y" + Padded(t[3..])
    else [t[0]] + Padded(t[1..])
  }

  lemma {:induction false} PaddedStart(t: string, plain: string)
    requires |plain| <= 2 && '.' !in plain
    ensures StartsWith(Padded(t), plain) <==> StartsWith(t, plain)
    decreases |plain|
  {
    if plain != "" && t != "" {
      if !StartsWith(t, ".py") {
        PaddedStart(t[1..], plain[1..]);
        FirstThenRest(t, plain);
        FirstThenRest(Padded(t), plain);
        assert Padded(t)[1..] == Padded(t[1..]);
      }
    }
  }

  lemma FirstThenRest(s: string, t: string)
    requires s != "" && t != ""
    ensures StartsWith(s, t) <==> s[0] == t[0] && StartsWith(s[1..], t[1..])
  {
    assert s == [s[0]] + s[1..] && t == [t[0]] + t[1..];
  }

  lemma {:induction false} PaddedRemoved(t: string)
    ensures RemovePy(Padded(t)) == t
  {
    if t == "" {
    } else if StartsWith(t, ".py") {
      PaddedRemoved(t[3..]);
      RemoveInserted(Padded(t[3..]));
      assert t == ".py" + t[3..];
    } else {
      PaddedRemoved(t[1..]);
      var p := Padded(t);
      PaddedStart(t[1..], "py");
      FirstThenRest(p, ".py");
      FirstThenRest(t, ".py");
      assert p[1..] == Padded(t[1..]) && ".py"[1..] == "py";
      assert t == [t[0]] + t[1..];
    }
  }

  lemma RemoveInserted(rest: string)
    ensures RemovePy(".p" + ".py" + "y" + rest) == ".py" + RemovePy(rest)
  {
    var s := ".p" + ".py" + "y" + rest;
    assert s[2] == '.' && ".py"[2] == 'y';
    var s1 := s[1..];
    assert s1 == "p" + ".py" + "y" + rest;
    var s2 := s1[1..];
    assert s2 == ".py" + ("y" + rest);
    assert s2[3..] == "y" + rest;
    assert ("y" + rest)[1..] == rest;
    assert RemovePy("y" + rest) == "y" + RemovePy(rest);
    assert RemovePy(s2) == "y" + RemovePy(rest);
    assert RemovePy(s1) == "p" + ("y" + RemovePy(rest));
    assert RemovePy(s) == "." + ("p" + ("y" + RemovePy(rest)));
  }

  lemma {:induction false} NoSlashes(s: string)
    ensures '/' !in ReplaceSlashes(s)
    ensures '/' !in s ==> ReplaceSlashes(s) == s
  {
    if s != "" {
      NoSlashes(s[1..]);
      assert s == [s[0]] + s[1..];
    }
  }

  lemma {:induction false} RemovalOnly(s: string)
    ensures forall c :: c in RemovePy(s) ==> c in s
  {
    if s == "" {
    } else if StartsWith(s, ".py") {
      RemovalOnly(s[3..]);
    } else {
      RemovalOnly(s[1..]);
    }
  }

  lemma {:induction false} PaddedNoSlash(t: string)
    requires '/' !in t
    ensures '/' !in Padded(t)
  {
    if t == "" {
    } else if StartsWith(t, ".py") {
      PaddedNoSlash(t[3..]);
    } else {
      PaddedNoSlash(t[1..]);
    }
  }

  predicate IsStem(t: string) {
    '/' !in t && |Split(t)| >= 2
  }

  /** The stems of script paths are exactly the texts with a "__" and no slash. */
  lemma StemsExactly(t: string)
    ensures IsStem(t) <==> exists script :: Stem(script) == t
    ensures IsStem(t) <==> '/' !in t && Contains(t, "__")
  {
    SplitCuts(t);
    if IsStem(t) {
      PaddedNoSlash(t);
      NoSlashes(Padded(t));
      PaddedRemoved(t);
      ParseRebuilds(Padded(t));
      assert Stem(Padded(t)) == t;
    }
    if script :| Stem(script) == t {
      StemIsStem(script);
    }
  }

  lemma StemIsStem(script: string)
    ensures IsStem(Stem(script))
  {
    var slug := Slug(script);
    ParseRebuilds(script);
    NoSlashes(script);
    RemovalOnly(ReplaceSlashes(script));
    if Contains(slug, "__") {
      SplitCuts(slug);
    } else {
      UnknownStem(slug);
    }
  }

  lemma UnknownStem(slug: string)
    requires '/' !in slug
    ensures IsStem("unknown" + "__" + slug)
  {
    var stem := "unknown" + "__" + slug;
    assert stem[7..] == "__" + slug;
    assert Contains(stem, "__");
    SplitCuts(stem);
  }

  // ----- what a path becomes

  lemma {:induction false} SlashSplits(a: string, b: string)
    ensures ReplaceSlashes(a + "/" + b) == ReplaceSlashes(a) + "__" + ReplaceSlashes(b)
  {
    var s := a + "/" + b;
    if a == "" {
      assert s[1..] == b;
    } else {
      SlashSplits(a[1..], b);
      assert s[1..] == a[1..] + "/" + b && s[0] == a[0];
      var piece := if a[0] == '/' then "__" else [a[0]];
      Regroup(piece, ReplaceSlashes(a[1..]), "__", ReplaceSlashes(b));
    }
  }

  lemma Regroup(a: string, b: string, c: string, d: string)
    ensures a + (b + c + d) == a + b + c + d
  {
  }

  /** Without ".py" in it, removing ".py" from a text changes nothing, and removes it from its end. */
  lemma {:induction false} RemovePlain(s: string)
    requires !Contains(s, ".py")
    ensures RemovePy(s) == s && RemovePy(s + ".py") == s
  {
    if s == "" {
      assert s + ".py" == ".py" && ".py"[3..] == "";
    } else {
      TailContainsNot(s, ".py");
      RemovePlain(s[1..]);
      assert s[0..] == s;
      NotAtStart(s);
      assert (s + ".py")[1..] == s[1..] + ".py";
      assert s == [s[0]] + s[1..];
    }
  }

  lemma TailContains(s: string, t: string)
    requires s != "" && Contains(s[1..], t)
    ensures Contains(s, t)
  {
    var i :| 0 <= i <= |s[1..]| && StartsWith(s[1..][i..], t);
    assert s[1..][i..] == s[i + 1..];
  }

  lemma NotAtStart(s: string)
    requires s != "" && !StartsWith(s, ".py")
    ensures !StartsWith(s + ".py", ".py")
  {
    var l := s + ".py";
    assert ".py"[1] == 'p' && ".py"[2] == 'y';
    assert |s| == 1 ==> l[1] == '.';
    assert |s| == 2 ==> l[2] == '.';
    assert |s| >= 3 ==> l[..3] == s[..3];
  }

  /** The documented form: a script in a directory is cut into directory and name. */
  lemma DocumentedPath(dir: string, name: string)
    requires '/' !in dir && '/' !in name && !Contains(dir + "_", "__") && !Contains(dir + "__" + name, ".py")
    ensures ParseScriptPath(dir + "/" + name + ".py") == (dir, name)
  {
    SlugOf(dir, name);
    SplitFirst(dir, name);
    JoinSplit(name);
    assert ([dir] + Split(name))[1..] == Split(name);
  }

  /** Its output is named after both, the GPU count, the resolution and the type. */
  lemma DocumentedName(dir: string, name: string, gpus: nat, resolution: Option<string>, video: bool)
    requires '/' !in dir && '/' !in name && !Contains(dir + "_", "__") && !Contains(dir + "__" + name, ".py")
    ensures
      var shown := if resolution.Some? && resolution.value != "" then resolution.value else "unknown";
      GenerateOutputFilename(dir + "/" + name + ".py", gpus, resolution, video)
      == dir + "__" + name + "_" + Decimal(gpus) + "gpu_" + shown + if video then ".mp4" else ".png"
  {
    var shown := if resolution.Some? && resolution.value != "" then resolution.value else "unknown";
    DocumentedPath(dir, name);
    Spelled(dir + "__" + name, Decimal(gpus), shown, Extension(video));
  }

  lemma Spelled(stem: string, count: string, resolution: string, extension: string)
    ensures stem + ("_" + count + "gpu_") + resolution + extension
            == stem + "_" + count + "gpu_" + resolution + extension
  {
    assert stem + ("_" + count + "gpu_") == stem + "_" + count + "gpu_";
  }

  lemma SlugOf(dir: string, name: string)
    requires '/' !in dir && '/' !in name && !Contains(dir + "__" + name, ".py")
    ensures Slug(dir + "/" + name + ".py") == dir + "__" + name
  {
    assert dir + "/" + name + ".py" == dir + "/" + (name + ".py");
    SlashSplits(dir, name + ".py");
    NoSlashes(dir);
    NoSlashes(name + ".py");
    assert dir + "__" + (name + ".py") == dir + "__" + name + ".py";
    RemovePlain(dir + "__" + name);
  }

  lemma {:induction false} SplitFirst(dir: string, name: string)
    requires !Contains(dir + "_", "__")
    ensures Split(dir + "__" + name) == [dir] + Split(name)
  {
    var s := dir + "__" + name;
    if dir == "" {
      assert s == "__" + name && s[2..] == name;
    } else {
      assert (dir + "_")[0..] == dir + "_";
      assert (dir + "_")[1..] == dir[1..] + "_";
      TailContainsNot(dir + "_", "__");
      SplitFirst(dir[1..], name);
      assert s[1..] == dir[1..] + "__" + name;
      assert s[..2] == (dir + "_")[..2];
      assert dir == [dir[0]] + dir[1..];
    }
  }

  lemma TailContainsNot(s: string, t: string)
    requires s != "" && !Contains(s, t)
    ensures !Contains(s[1..], t)
  {
    if Contains(s[1..], t) {
      TailContains(s, t);
    }
  }

  // ----- file names

  /** The part of the name that carries the GPU count. */
  function Marker(gpus: nat): string {
    "_" + Decimal(gpus) + "gpu_"
  }

  function Extension(video: bool): string {
    if video then ".mp4" else ".png"
  }

  function Stem(script: string): string {
    var (dir, name) := ParseScriptPath(script);
    dir + "__" + name
  }

  /** `resolution or "unknown"`. */
  function ResolutionText(resolution: Option<string>): string {
    if resolution.None? || resolution.value == "" then "unknown" else resolution.value
  }

  function NameFor(stem: string, gpus: nat, resolution: string, video: bool): string {
    stem + Marker(gpus) + resolution + Extension(video)
  }

  function GenerateOutputFilename(script: string, gpus: nat, resolution: Option<string>, video: bool): string {
    NameFor(Stem(script), gpus, ResolutionText(resolution), video)
  }

  predicate Matches(file: string, stem: string, gpus: nat, video: bool) {
    StartsWith(file, stem + Marker(gpus)) && EndsWith(file, Extension(video))
  }

  /** The lookup through a directory listing. */
  method CheckOutputExists(listing: seq<string>, script: string, gpus: nat, video: bool) returns (found: bool)
    ensures found <==> exists f :: f in listing && Matches(f, Stem(script), gpus, video)
  {
    for i := 0 to |listing|
      invariant forall j :: 0 <= j < i ==> !Matches(listing[j], Stem(script), gpus, video)
    {
      if Matches(listing[i], Stem(script), gpus, video) {
        assert listing[i] in listing;
        return true;
      }
    }
    return false;
  }

  // ----- exactness of the lookup

  /** A generated name is found by its own lookup, and by no lookup for the other output type. */
  lemma FindsOwn(script: string, gpus: nat, resolution: Option<string>, video: bool)
    ensures Matches(GenerateOutputFilename(script, gpus, resolution, video), Stem(script), gpus, video)
    ensures forall other, g, kind :: Matches(GenerateOutputFilename(script, gpus, resolution, video), other, g, kind)
                                     ==> kind == video
  {
    var f := GenerateOutputFilename(script, gpus, resolution, video);
    EndsInExtension(Stem(script) + Marker(gpus) + ResolutionText(resolution), video);
  }

  lemma EndsInExtension(front: string, video: bool)
    ensures EndsWith(front + Extension(video), Extension(video))
    ensures !EndsWith(front + Extension(video), Extension(!video))
  {
    var f := front + Extension(video);
    assert f[|f| - 4..] == Extension(video);
    assert Extension(true)[1] != Extension(false)[1];
  }

  ghost predicate MarkerAt(s: string, i: nat, gpus: nat) {
    i <= |s| && Marker(gpus) <= s[i..]
  }

  /** A marker has underscores at its two ends only. */
  lemma MarkerShape(gpus: nat)
    ensures |Marker(gpus)| >= 6 && Marker(gpus)[0] == '_' && Marker(gpus)[|Marker(gpus)| - 1] == '_'
    ensures forall k :: 0 < k < |Marker(gpus)| - 1 ==> Marker(gpus)[k] != '_'
  {
    var m, d := Marker(gpus), Decimal(gpus);
    assert forall k :: 0 < k < |m| - 1 ==> m[k] == if k <= |d| then d[k - 1] else "gpu_"[k - 1 - |d|];
  }

  lemma MarkerLetters(s: string, i: nat, gpus: nat)
    requires MarkerAt(s, i, gpus)
    ensures i + |Marker(gpus)| <= |s|
    ensures forall k :: 0 <= k < |Marker(gpus)| ==> s[i + k] == Marker(gpus)[k]
  {
    assert forall k :: 0 <= k < |Marker(gpus)| ==> s[i..][k] == s[i + k];
  }

  lemma LetterAt(s: string, i: nat, gpus: nat, k: nat)
    requires MarkerAt(s, i, gpus) && k < |Marker(gpus)|
    ensures i + |Marker(gpus)| <= |s|
    ensures s[i + k] == '_' <==> k == 0 || k == |Marker(gpus)| - 1
  {
    MarkerLetters(s, i, gpus);
    MarkerShape(gpus);
  }

  lemma NotLonger(s: string, i: nat, g: nat, h: nat)
    requires MarkerAt(s, i, g) && MarkerAt(s, i, h)
    ensures |Marker(h)| <= |Marker(g)|
  {
    var last := |Marker(g)| - 1;
    MarkerShape(g);
    LetterAt(s, i, g, last);
    if last < |Marker(h)| - 1 {
      LetterAt(s, i, h, last);
    }
  }

  /** Only one GPU count can be read at one place. */
  lemma MarkerUnique(s: string, i: nat, g: nat, h: nat)
    requires MarkerAt(s, i, g) && MarkerAt(s, i, h)
    ensures g == h
  {
    NotLonger(s, i, g, h);
    NotLonger(s, i, h, g);
    var a, b := Marker(g), Marker(h);
    assert a == s[i..][..|a|] == b;
    assert a[1..|a| - 4] == Decimal(g) && b[1..|b| - 4] == Decimal(h);
    DecimalReads(g);
    DecimalReads(h);
  }

  /** Two markers in one string do not overlap, except that one may end where the next begins. */
  lemma MarkersApart(s: string, i: nat, g: nat, j: nat, h: nat)
    requires MarkerAt(s, i, g) && MarkerAt(s, j, h) && i < j
    ensures i + |Marker(g)| - 1 <= j
  {
    MarkerShape(h);
    LetterAt(s, j, h, 0);
    if j < i + |Marker(g)| - 1 {
      LetterAt(s, i, g, j - i);
    }
  }

  /** The places a name can be misread: a marker inside the stem, after the start of another stem,
      or one after the own marker, with no slash before it. */
  ghost predicate Misleading(stem: string, resolution: string, video: bool) {
    || (exists i: nat, g :: MarkerAt(stem + "_", i, g) && Contains(stem[..Min(i, |stem|)], "__"))
    || (exists j: nat, g :: MarkerAt("_" + resolution + Extension(video), j, g)
                            && '/' !in ("_" + resolution + Extension(video))[..j])
  }

  /** The lookup is exact for a script's output, that is, the file is found for no script of another
      stem and under no other GPU count, exactly when its name is not misleading. */
  lemma LookupExact(script: string, gpus: nat, resolution: Option<string>, video: bool)
    ensures (forall other, g :: Matches(GenerateOutputFilename(script, gpus, resolution, video), Stem(other), g, video)
                                ==> Stem(other) == Stem(script) && g == gpus)
            <==> !Misleading(Stem(script), ResolutionText(resolution), video)
  {
    var stem, res := Stem(script), ResolutionText(resolution);
    var f := NameFor(stem, gpus, res, video);
    StemIsStem(script);
    if Misleading(stem, res, video) {
      var t, g := FoundElsewhere(stem, gpus, res, video);
      StemsExactly(t);
      var other :| Stem(other) == t;
      assert Matches(GenerateOutputFilename(script, gpus, resolution, video), Stem(other), g, video);
    } else {
      forall other, g | Matches(f, Stem(other), g, video)
        ensures Stem(other) == stem && g == gpus
      {
        StemIsStem(other);
        OnlyOwn(stem, gpus, res, video, Stem(other), g);
      }
    }
  }

  lemma OnlyOwn(stem: string, gpus: nat, resolution: string, video: bool, other: string, g: nat)
    requires !Misleading(stem, resolution, video) && IsStem(other)
    requires Matches(NameFor(stem, gpus, resolution, video), other, g, video)
    ensures other == stem && g == gpus
  {
    var f := NameFor(stem, gpus, resolution, video);
    PrefixMarker(f, other, g);
    OwnMarker(stem, gpus, resolution, video);
    OtherMisleads(stem, gpus, resolution, video, other, g);
    MarkerUnique(f, |other|, g, gpus);
    assert f[..|stem|] == stem;
  }

  lemma OtherMisleads(stem: string, gpus: nat, resolution: string, video: bool, other: string, g: nat)
    requires IsStem(other) && Matches(NameFor(stem, gpus, resolution, video), other, g, video)
    ensures |other| == |stem| || Misleading(stem, resolution, video)
  {
    var f := NameFor(stem, gpus, resolution, video);
    var i := |other|;
    PrefixMarker(f, other, g);
    OwnMarker(stem, gpus, resolution, video);
    StemsExactly(other);
    if i < |stem| {
      MarkersApart(f, i, g, |stem|, gpus);
      MarkerBefore(stem, gpus, resolution, video, i, g);
      assert stem[..Min(i, |stem|)] == f[..i];
    } else if i > |stem| {
      MarkersApart(f, |stem|, gpus, i, g);
      MarkerAfter(stem, gpus, resolution, video, i, g);
      BeforeAfter(stem, gpus, resolution, video, i);
    }
  }

  /** The text before a place after the own marker. */
  lemma BeforeAfter(stem: string, gpus: nat, resolution: string, video: bool, i: nat)
    requires |stem| + |Marker(gpus)| - 1 <= i <= |NameFor(stem, gpus, resolution, video)|
    ensures
      var tail := "_" + resolution + Extension(video);
      var j := i - (|stem| + |Marker(gpus)| - 1);
      j <= |tail| && NameFor(stem, gpus, resolution, video)[..i] == stem + ("_" + Decimal(gpus) + "gpu") + tail[..j]
  {
    var f := NameFor(stem, gpus, resolution, video);
    var front := stem + ("_" + Decimal(gpus) + "gpu");
    var tail := "_" + resolution + Extension(video);
    assert f == front + tail;
  }

  lemma FoundElsewhere(stem: string, gpus: nat, resolution: string, video: bool) returns (other: string, g: nat)
    requires Misleading(stem, resolution, video) && IsStem(stem)
    ensures Matches(NameFor(stem, gpus, resolution, video), other, g, video) && other != stem && IsStem(other)
  {
    var f := NameFor(stem, gpus, resolution, video);
    var i: nat;
    if j: nat, h :| MarkerAt(stem + "_", j, h) && Contains(stem[..Min(j, |stem|)], "__") {
      i, g := j, h;
      MisledInside(stem, gpus, resolution, video, i, g);
    } else {
      var j: nat;
      j, g :| MarkerAt("_" + resolution + Extension(video), j, g)
              && '/' !in ("_" + resolution + Extension(video))[..j];
      i := MisledAfter(stem, gpus, resolution, video, j, g);
    }
    other := f[..i];
    OwnMarker(stem, gpus, resolution, video);
    PrefixMarker(f, other, g);
  }

  lemma MisledInside(stem: string, gpus: nat, resolution: string, video: bool, i: nat, g: nat)
    requires IsStem(stem) && MarkerAt(stem + "_", i, g) && Contains(stem[..Min(i, |stem|)], "__")
    ensures
      var f := NameFor(stem, gpus, resolution, video);
      i < |stem| && i <= |f| && MarkerAt(f, i, g) && IsStem(f[..i])
  {
    MarkerLetters(stem + "_", i, g);
    MarkerShape(g);
    MarkerBefore(stem, gpus, resolution, video, i, g);
    assert NameFor(stem, gpus, resolution, video)[..i] == stem[..i];
    StemsExactly(stem[..i]);
  }

  lemma MisledAfter(stem: string, gpus: nat, resolution: string, video: bool, j: nat, g: nat) returns (i: nat)
    requires IsStem(stem) && MarkerAt("_" + resolution + Extension(video), j, g)
    requires '/' !in ("_" + resolution + Extension(video))[..j]
    ensures
      var f := NameFor(stem, gpus, resolution, video);
      |stem| < i <= |f| && MarkerAt(f, i, g) && IsStem(f[..i])
  {
    var tail := "_" + resolution + Extension(video);
    i := j + (|stem| + |Marker(gpus)| - 1);
    MarkerShape(gpus);
    MarkerLetters(tail, j, g);
    NameLength(stem, gpus, resolution, video);
    MarkerAfter(stem, gpus, resolution, video, i, g);
    BeforeAfter(stem, gpus, resolution, video, i);
    StemLonger(stem, gpus, tail[..j]);
  }

  lemma NameLength(stem: string, gpus: nat, resolution: string, video: bool)
    ensures |NameFor(stem, gpus, resolution, video)|
            == |stem| + |Marker(gpus)| - 1 + |"_" + resolution + Extension(video)|
  {
  }

  lemma StemLonger(stem: string, gpus: nat, more: string)
    requires IsStem(stem) && '/' !in more
    ensures IsStem(stem + ("_" + Decimal(gpus) + "gpu") + more)
  {
    var marker := "_" + Decimal(gpus) + "gpu";
    StemsExactly(stem);
    ContainsMore(stem, marker + more, "__");
    assert stem + marker + more == stem + (marker + more);
    StemsExactly(stem + marker + more);
  }

  lemma ContainsMore(s: string, more: string, t: string)
    requires Contains(s, t)
    ensures Contains(s + more, t)
  {
    var i :| 0 <= i <= |s| && StartsWith(s[i..], t);
    assert (s + more)[i..] == s[i..] + more;
  }

  lemma PrefixMarker(f: string, stem: string, g: nat)
    ensures StartsWith(f, stem + Marker(g)) <==> |stem| <= |f| && f[..|stem|] == stem && MarkerAt(f, |stem|, g)
  {
    var p := stem + Marker(g);
    if StartsWith(f, p) {
      assert f == p + f[|p|..];
      assert f[|stem|..] == Marker(g) + f[|p|..];
    }
    if |stem| <= |f| && f[..|stem|] == stem && MarkerAt(f, |stem|, g) {
      assert f == stem + f[|stem|..];
      assert f[|stem|..] == Marker(g) + f[|stem|..][|Marker(g)|..];
    }
  }

  lemma OwnMarker(stem: string, gpus: nat, resolution: string, video: bool)
    ensures MarkerAt(NameFor(stem, gpus, resolution, video), |stem|, gpus)
    ensures EndsWith(NameFor(stem, gpus, resolution, video), Extension(video))
  {
    var f := NameFor(stem, gpus, resolution, video);
    assert f[|stem|..] == Marker(gpus) + (resolution + Extension(video));
    EndsInExtension(stem + Marker(gpus) + resolution, video);
  }

  lemma MarkerBefore(stem: string, gpus: nat, resolution: string, video: bool, i: nat, g: nat)
    requires i < |stem| && i + |Marker(g)| - 1 <= |stem|
    ensures MarkerAt(NameFor(stem, gpus, resolution, video), i, g) <==> MarkerAt(stem + "_", i, g)
  {
    var f := NameFor(stem, gpus, resolution, video);
    var head := stem + "_";
    MarkerShape(gpus);
    assert f[..|head|] == head;
    var m := Marker(g);
    assert f[i..][..|m|] == head[i..][..|m|];
  }

  lemma MarkerAfter(stem: string, gpus: nat, resolution: string, video: bool, i: nat, g: nat)
    requires |stem| + |Marker(gpus)| - 1 <= i
    ensures MarkerAt(NameFor(stem, gpus, resolution, video), i, g)
            <==> MarkerAt("_" + resolution + Extension(video), i - (|stem| + |Marker(gpus)| - 1), g)
  {
    var f := NameFor(stem, gpus, resolution, video);
    var cut := |stem| + |Marker(gpus)| - 1;
    var tail := "_" + resolution + Extension(video);
    MarkerShape(gpus);
    assert f[cut..] == tail;
    if i <= |f| {
      assert f[i..] == tail[i - cut..];
    }
  }

  // ----- when nothing is misleading

  /** A run of digits between an underscore and "gpu". */
  ghost predicate GpuWordAt(s: string, i: nat, k: nat) {
    && i + 1 < k && k + 3 <= |s| && s[i] == '_' && s[k..k + 3] == "gpu"
    && forall j :: i < j < k ==> '0' <= s[j] <= '9'
  }

  lemma MarkerIsGpuWord(stem: string, i: nat, g: nat)
    requires MarkerAt(stem + "_", i, g)
    ensures GpuWordAt(stem, i, i + 1 + |Decimal(g)|)
  {
    MarkerLetters(stem + "_", i, g);
    var d, m := Decimal(g), Marker(g);
    var k := i + 1 + |d|;
    assert m == "_" + d + "gpu_";
    assert forall j :: 0 <= j < |m| - 1 ==> stem[i + j] == m[j];
    assert m[1 + |d|] == 'g' && m[2 + |d|] == 'p' && m[3 + |d|] == 'u';
    assert stem[k..k + 3] == [stem[i + (1 + |d|)], stem[i + (2 + |d|)], stem[i + (3 + |d|)]];
    assert stem[i + 0] == m[0] && m[0] == '_';
    forall j | i < j < k ensures '0' <= stem[j] <= '9' {
      assert stem[i + (j - i)] == m[j - i] == d[j - i - 1];
    }
  }

  lemma MarkerNeedsUnderscore(resolution: string, video: bool, i: nat, g: nat)
    requires MarkerAt("_" + resolution + Extension(video), i, g)
    ensures '_' in resolution
  {
    var tail := "_" + resolution + Extension(video);
    var e := |Marker(g)| - 1;
    MarkerShape(g);
    LetterAt(tail, i, g, e);
    ExtensionPlain(resolution, video);
    assert tail[i + e] == resolution[i + e - 1];
  }

  lemma ExtensionPlain(resolution: string, video: bool)
    ensures
      var tail := "_" + resolution + Extension(video);
      forall k :: |resolution| < k < |tail| ==> tail[k] != '_'
  {
    var tail := "_" + resolution + Extension(video);
    assert forall k :: |resolution| < k < |tail| ==> tail[k] == Extension(video)[k - 1 - |resolution|];
  }

  /** No "_<digits>gpu" in the stem and no underscore in the resolution: the lookup is exact. */
  lemma PlainNamesExact(script: string, gpus: nat, resolution: Option<string>, video: bool)
    requires forall i, k :: !GpuWordAt(Stem(script), i, k)
    requires '_' !in ResolutionText(resolution)
    ensures forall other, g :: Matches(GenerateOutputFilename(script, gpus, resolution, video), Stem(other), g, video)
                               ==> Stem(other) == Stem(script) && g == gpus
  {
    var stem, res := Stem(script), ResolutionText(resolution);
    if i: nat, g :| MarkerAt(stem + "_", i, g) {
      MarkerIsGpuWord(stem, i, g);
    }
    if j: nat, g :| MarkerAt("_" + res + Extension(video), j, g) {
      MarkerNeedsUnderscore(res, video, j, g);
    }
    LookupExact(script, gpus, resolution, video);
  }

  /** A stem that contains a marker is misread: one script's output is taken for another's. */
  lemma MisreadExample()
    ensures Matches(NameFor("d__a_1gpu_b", 2, "64x64", true), "d__a", 1, true)
  {
    assert Decimal(1) == "1";
    assert "d__a_1gpu_b" == "d__a" + Marker(1) + "b";
    EndsInExtension("d__a_1gpu_b" + Marker(2) + "64x64", true);
  }
}
