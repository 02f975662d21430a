/**
 * Where the program looks for its images, derived from the path it was
 * started by (`argv[0]`): the directory three levels above the program for
 * its own images, and one more level up for the images of the duds library.
 */
module ImagePath {
  /** The suffix appended to the program's own image directory. */
  const OwnImages := "bin/images/"

  /** The suffix appended to the library's image directory. */
  const LibraryImages := "duds/bin/images/"

  /** The library's directory when the path runs out of levels. */
  const Fallback := "../"

  /** Number of '/' in `s`. */
  function Slashes(s: string): nat
  {
    if s == [] then 0 else Slashes(s[..|s| - 1]) + (if s[|s| - 1] == '/' then 1 else 0)
  }

  /** The slashes of a concatenation are those of its parts. */
  lemma {:induction false} SlashesAppend(a: string, b: string)
    ensures Slashes(a + b) == Slashes(a) + Slashes(b)
    decreases |b|
  {
    if b != [] {
      var b' := b[..|b| - 1];
      assert (a + b)[..|a + b| - 1] == a + b';
      SlashesAppend(a, b');
    } else {
      assert a + b == a;
    }
  }

  /**
   * The characters a search from the end of `s` examines: the last one is
   * popped before the first test.
   */
  function Examined(s: string): (d: string)
    ensures d <= s && (s != [] ==> |d| == |s| - 1)
  {
    if s == [] then [] else s[..|s| - 1]
  }

  /** The prefix of `s` ending with its `k`-th '/' counted from the end. */
  function Through(s: string, k: nat): (r: string)
    requires 1 <= k <= Slashes(s)
    ensures r <= s && r != [] && r[|r| - 1] == '/'
    decreases |s|
  {
    assert s == s[..|s| - 1] + [s[|s| - 1]];
    if s[|s| - 1] == '/' then
      (if k == 1 then s else Through(s[..|s| - 1], k - 1))
    else Through(s[..|s| - 1], k)
  }

  /** Dropping the last character of a string removes its '/' if it was one. */
  lemma SlashesDropLast(s: string)
    requires s != []
    ensures Slashes(s) == Slashes(s[..|s| - 1]) + (if s[|s| - 1] == '/' then 1 else 0)
  {
  }

  /** One step of the search: the `g`-th '/' is the last character, or it lies in the rest. */
  lemma ThroughStep(d: string, g: nat)
    requires d != [] && 1 <= g <= Slashes(d)
    ensures d[|d| - 1] == '/' && g == 1 ==> Through(d, g) == d
    ensures !(d[|d| - 1] == '/' && g == 1) ==>
      var g' := if d[|d| - 1] == '/' then g - 1 else g;
      Examined(d) != [] && 1 <= g' <= Slashes(Examined(d)) && Through(d, g) == Through(Examined(d), g')
  {
    SlashesDropLast(d);
  }

  /** Exactly `k - 1` '/' follow the prefix `Through(s, k)`. */
  lemma {:induction false} ThroughCount(s: string, k: nat)
    requires 1 <= k <= Slashes(s)
    ensures Slashes(s[|Through(s, k)|..]) == k - 1
    decreases |s|
  {
    var d := s[..|s| - 1];
    SlashesDropLast(s);
    if s[|s| - 1] == '/' && k == 1 {
      assert s[|s|..] == [];
    } else {
      var k' := if s[|s| - 1] == '/' then k - 1 else k;
      ThroughCount(d, k');
      var r := Through(d, k');
      assert s[|r|..] == d[|r|..] + [s[|s| - 1]];
      assert d[|r|..] + [s[|s| - 1]] == s[|r|..];
      SlashesDropLast(s[|r|..]);
      assert s[|r|..][..|s[|r|..]| - 1] == d[|r|..];
    }
  }

  /** A prefix ending with '/' and followed by exactly `k - 1` more is `Through(s, k)`. */
  lemma {:induction false} ThroughUnique(s: string, k: nat, r: string)
    requires 1 <= k && r <= s && r != [] && r[|r| - 1] == '/'
    requires Slashes(s[|r|..]) == k - 1
    ensures k <= Slashes(s) && Through(s, k) == r
    decreases |s|
  {
    assert s == r + s[|r|..];
    SlashesAppend(r, s[|r|..]);
    SlashesDropLast(r);
    SlashesDropLast(s);
    if |s| == |r| {
      assert s == r;
      assert s[|r|..] == [];
      ThroughStep(s, k);
    } else {
      var d := s[..|s| - 1];
      var t := s[|r|..];
      SlashesDropLast(t);
      assert t[..|t| - 1] == d[|r|..];
      var k' := if s[|s| - 1] == '/' then k - 1 else k;
      ThroughUnique(d, k', r);
      ThroughStep(s, k);
    }
  }

  /** Going `j` levels up and then `k` more from the next character is going `j + k` levels up. */
  lemma ThroughThrough(s: string, j: nat, k: nat)
    requires 1 <= j && 1 <= k && j + k <= Slashes(s)
    ensures k <= Slashes(Examined(Through(s, j)))
    ensures Through(Examined(Through(s, j)), k) == Through(s, j + k)
  {
    var r := SlashesAfterThrough(s, j, k);
    ThroughUnique(s, j + k, r);
  }

  /** The prefix `k` levels above `Through(s, j)` has `j + k - 1` slashes after it in `s`. */
  lemma SlashesAfterThrough(s: string, j: nat, k: nat) returns (r: string)
    requires 1 <= j && 1 <= k && j + k <= Slashes(s)
    ensures k <= Slashes(Examined(Through(s, j)))
    ensures r == Through(Examined(Through(s, j)), k)
    ensures r <= s && Slashes(s[|r|..]) == j + k - 1
  {
    var t := Through(s, j);
    var e := Examined(t);
    ThroughCount(s, j);
    assert s == t + s[|t|..];
    SlashesAppend(t, s[|t|..]);
    SlashesDropLast(t);
    r := Through(e, k);
    ThroughCount(e, k);
    var tail := e[|r|..] + [t[|t| - 1]];
    assert s[|r|..] == tail + s[|t|..];
    SlashesAppend(tail, s[|t|..]);
    SlashesAppend(e[|r|..], [t[|t| - 1]]);
  }

  // -----------------------------------------------------------------------
  // The derivation as written.
  // -----------------------------------------------------------------------

  /**
   * The derivation is defined: popping never empties the string before
   * `back()` reads it, which takes a fourth '/' before the last character,
   * or an empty `argv[0]`.
   */
  predicate PathsDefined(argv0: string)
  {
    argv0 == [] || Slashes(Examined(argv0)) >= 4
  }

  /**
   * One of the two loops: pop the last character and count a '/' that
   * becomes last, until `goal` have been counted or the string is empty.
   * `back()` on a string just emptied is undefined, hence the requires.
   */
  method PopToSlash(path: string, found: nat, goal: nat) returns (p: string, f: nat)
    requires found <= goal
    requires path != [] && found < goal ==> Slashes(Examined(path)) >= goal - found
    ensures path == [] || found == goal ==> p == path && f == found
    ensures path != [] && found < goal ==> f == goal && p == Through(Examined(path), goal - found)
  {
    p, f := path, found;
    ghost var moving := path != [] && found < goal;
    while p != [] && f < goal
      invariant f <= goal
      invariant !moving ==> p == path && f == found
      invariant moving && f < goal ==> p != [] && Slashes(Examined(p)) >= goal - f
      invariant moving && f < goal ==> Through(Examined(p), goal - f) == Through(Examined(path), goal - found)
      invariant moving && f == goal ==> p == Through(Examined(path), goal - found)
      decreases |p|
    {
      p := p[..|p| - 1];
      ThroughStep(p, goal - f);
      if p[|p| - 1] == '/' {
        f := f + 1;
      }
    }
  }

  /** `main`'s derivation of `imgpath` and `extimgpath`, as written. */
  method ImagePathsAsWritten(argv0: string) returns (imgpath: string, extimgpath: string)
    requires PathsDefined(argv0)
    ensures argv0 == [] ==> imgpath == OwnImages && extimgpath == Fallback + LibraryImages
    ensures argv0 != [] ==> imgpath == Through(Examined(argv0), 3) + OwnImages
    ensures argv0 != [] ==> extimgpath == Through(Examined(argv0), 4) + LibraryImages
    ensures DerivationAsWritten(argv0) == Derived(imgpath, extimgpath)
  {
    DerivationAsWrittenExact(argv0);
    var found := 0;
    imgpath := argv0;
    imgpath, found := PopToSlash(imgpath, found, 3);
    extimgpath := imgpath;
    imgpath := imgpath + OwnImages;
    if argv0 != [] {
      ThroughThrough(Examined(argv0), 3, 1);
    }
    extimgpath, found := PopToSlash(extimgpath, found, 4);
    if extimgpath == [] {
      extimgpath := Fallback;
    }
    extimgpath := extimgpath + LibraryImages;
  }

  /** A string without '/' has no slashes to count. */
  lemma {:induction false} NoSlashes(s: string)
    requires forall i :: 0 <= i < |s| ==> s[i] != '/'
    ensures Slashes(s) == 0
    decreases |s|
  {
    if s != [] {
      NoSlashes(s[..|s| - 1]);
    }
  }

  /** Started as `./eclipse`, the derivation reads `back()` of an emptied string. */
  lemma RelativeInvocationUndefined()
    ensures !PathsDefined("./eclipse")
    ensures DerivationAsWritten("./eclipse") == Undefined
  {
    var d := Examined("./eclipse");
    assert d == "./" + "eclips";
    SlashesAppend("./", "eclips");
    NoSlashes("eclips");
    assert "./"[..1] == "." && "."[..0] == [];
    DerivationAsWrittenExact("./eclipse");
  }

  /** What a pop loop as written ends with: the string and the count, or a read of `back()` of an empty string. */
  datatype PopOutcome = Popped(rest: string, found: nat) | BackOfEmpty

  /**
   * One pop loop of `main` as written, for every input: while the string is
   * not empty and fewer than `goal` '/' were counted, pop the last character
   * and read the new last one, which is undefined once the string is empty.
   */
  function PopAsWritten(p: string, f: nat, goal: nat): PopOutcome
    decreases |p|
  {
    if p == [] || f >= goal then Popped(p, f)
    else
      var q := p[..|p| - 1];
      if q == [] then BackOfEmpty
      else PopAsWritten(q, f + (if q[|q| - 1] == '/' then 1 else 0), goal)
  }

  /**
   * A pop loop that has to move reaches its `goal`-th '/' exactly when the
   * examined characters hold that many, and otherwise reads `back()` of an
   * empty string.
   */
  lemma {:induction false} PopAsWrittenSpec(p: string, f: nat, goal: nat)
    requires p != [] && f < goal
    ensures PopAsWritten(p, f, goal) ==
      if Slashes(Examined(p)) >= goal - f then Popped(Through(Examined(p), goal - f), goal) else BackOfEmpty
    decreases |p|
  {
    var q := p[..|p| - 1];
    if q != [] {
      SlashesDropLast(q);
      var f' := f + (if q[|q| - 1] == '/' then 1 else 0);
      if f' < goal {
        PopAsWrittenSpec(q, f', goal);
        if Slashes(q) >= goal - f {
          ThroughStep(q, goal - f);
        }
      } else {
        ThroughStep(q, 1);
      }
    }
  }

  /** What `main`'s two loops and the fallback give as written: both directories, or an undefined read. */
  datatype Derivation = Derived(imgpath: string, extimgpath: string) | Undefined

  function DerivationAsWritten(argv0: string): Derivation
  {
    match PopAsWritten(argv0, 0, 3)
    case BackOfEmpty => Undefined
    case Popped(own, found) =>
      match PopAsWritten(own, found, 4)
      case BackOfEmpty => Undefined
      case Popped(ext, _) => Derived(own + OwnImages, (if ext == [] then Fallback else ext) + LibraryImages)
  }

  /**
   * The derivation as written is undefined exactly when `PathsDefined`
   * fails, and otherwise gives the directories three and four levels up.
   */
  lemma DerivationAsWrittenExact(argv0: string)
    ensures DerivationAsWritten(argv0) == Undefined <==> !PathsDefined(argv0)
    ensures PathsDefined(argv0) && argv0 == [] ==>
      DerivationAsWritten(argv0) == Derived(OwnImages, Fallback + LibraryImages)
    ensures PathsDefined(argv0) && argv0 != [] ==>
      DerivationAsWritten(argv0) ==
        Derived(Through(Examined(argv0), 3) + OwnImages, Through(Examined(argv0), 4) + LibraryImages)
  {
    if argv0 != [] {
      if Slashes(Examined(argv0)) >= 4 {
        DerivationFourUp(argv0);
      } else {
        DerivationTooShallow(argv0);
      }
    }
  }

  /** With four '/' to pop to, both loops as written finish. */
  lemma DerivationFourUp(argv0: string)
    requires argv0 != [] && Slashes(Examined(argv0)) >= 4
    ensures DerivationAsWritten(argv0) ==
      Derived(Through(Examined(argv0), 3) + OwnImages, Through(Examined(argv0), 4) + LibraryImages)
  {
    PopAsWrittenSpec(argv0, 0, 3);
    OwnThenLibrary(argv0);
    PopAsWrittenSpec(OwnBase(argv0), 3, 4);
  }

  /** With fewer than four '/' to pop to, one of the loops as written empties the string. */
  lemma DerivationTooShallow(argv0: string)
    requires argv0 != [] && Slashes(Examined(argv0)) < 4
    ensures DerivationAsWritten(argv0) == Undefined
  {
    PopAsWrittenSpec(argv0, 0, 3);
    if Slashes(Examined(argv0)) == 3 {
      OwnThenLibrary(argv0);
      PopAsWrittenSpec(OwnBase(argv0), 3, 4);
    }
  }

  // -----------------------------------------------------------------------
  // The derivation with the emptiness test the fallback implies.
  // -----------------------------------------------------------------------

  /**
   * The program's image directory: three levels up, or the current
   * directory when the path has fewer levels.
   */
  function OwnBase(argv0: string): (r: string)
    ensures Slashes(Examined(argv0)) >= 3 ==> r != [] && r < argv0
  {
    var d := Examined(argv0);
    if Slashes(d) >= 3 then Through(d, 3) else []
  }

  /** The library's image directory: four levels up, or `../` when the path has fewer. */
  function LibraryBase(argv0: string): (r: string)
    ensures r != []
  {
    var d := Examined(argv0);
    if Slashes(d) >= 4 then Through(d, 4) else Fallback
  }

  /** Where it has enough levels, the library's directory is a parent of the program's. */
  lemma LibraryAboveOwn(argv0: string)
    requires Slashes(Examined(argv0)) >= 4
    ensures LibraryBase(argv0) < OwnBase(argv0)
    ensures Slashes(OwnBase(argv0)[|LibraryBase(argv0)|..]) == 1
  {
    var d := Examined(argv0);
    ThroughThrough(d, 3, 1);
    ThroughCount(d, 3);
    ThroughCount(d, 4);
    var r3, r4 := Through(d, 3), Through(d, 4);
    assert d[|r4|..] == r3[|r4|..] + d[|r3|..];
    SlashesAppend(r3[|r4|..], d[|r3|..]);
  }

  /** As `PopToSlash`, but a '/' is looked for only while the string is not empty. */
  method PopToSlashChecked(path: string, found: nat, goal: nat) returns (p: string, f: nat)
    requires found <= goal
    ensures path == [] || found == goal ==> p == path && f == found
    ensures path != [] && found < goal && Slashes(Examined(path)) >= goal - found ==>
      f == goal && p == Through(Examined(path), goal - found)
    ensures path != [] && found < goal && Slashes(Examined(path)) < goal - found ==>
      f == found + Slashes(Examined(path)) && p == []
  {
    p, f := path, found;
    ghost var moving := path != [] && found < goal;
    ghost var enough := Slashes(Examined(path)) >= goal - found;
    while p != [] && f < goal
      invariant f <= goal
      invariant !moving ==> p == path && f == found
      invariant moving && p != [] ==> f - found + Slashes(Examined(p)) == Slashes(Examined(path))
      invariant moving && p == [] ==> f - found == Slashes(Examined(path))
      invariant moving && enough && f < goal ==> p != [] && Through(Examined(p), goal - f) == Through(Examined(path), goal - found)
      invariant moving && enough && f == goal ==> p == Through(Examined(path), goal - found)
      invariant moving && !enough ==> f < goal
      decreases |p|
    {
      p := p[..|p| - 1];
      if p != [] {
        SlashesDropLast(p);
        if p[|p| - 1] == '/' {
          f := f + 1;
        }
      }
    }
  }

  /**
   * Where the second search starts from the first one's result: with four
   * levels it finds the fourth '/', with exactly three it finds none.
   */
  lemma OwnThenLibrary(argv0: string)
    ensures Slashes(Examined(argv0)) >= 4 ==>
      OwnBase(argv0) != [] && Slashes(Examined(OwnBase(argv0))) >= 1 &&
      Through(Examined(OwnBase(argv0)), 1) == LibraryBase(argv0)
    ensures Slashes(Examined(argv0)) == 3 ==> OwnBase(argv0) != [] && Slashes(Examined(OwnBase(argv0))) == 0
  {
    var d := Examined(argv0);
    if Slashes(d) >= 4 {
      ThroughThrough(d, 3, 1);
    } else if Slashes(d) == 3 {
      ThroughCount(d, 3);
      var r := Through(d, 3);
      assert d == r + d[|r|..];
      SlashesAppend(r, d[|r|..]);
      SlashesDropLast(r);
    }
  }

  /** `main`'s derivation with the emptiness test: defined for every `argv[0]`. */
  method ImagePathsChecked(argv0: string) returns (imgpath: string, extimgpath: string)
    ensures imgpath == OwnBase(argv0) + OwnImages
    ensures extimgpath == LibraryBase(argv0) + LibraryImages
  {
    var found := 0;
    imgpath := argv0;
    imgpath, found := PopToSlashChecked(imgpath, found, 3);
    OwnThenLibrary(argv0);
    var own := imgpath;
    assert own == OwnBase(argv0);
    assert own != [] ==> found == 3;
    imgpath := imgpath + OwnImages;
    extimgpath, found := PopToSlashChecked(own, found, 4);
    if extimgpath == [] {
      extimgpath := Fallback;
    }
    extimgpath := extimgpath + LibraryImages;
  }
}
