/**
 * File-name logic shared by the scan and the commit: the case-insensitive
 * extension filter (`f.lower().endswith((".jpg", ".jpeg", ".png"))`,
 * main.py:177-180 and main.py:451-457), `os.path.splitext(name)[0]` and the
 * output name `stem1_stem2.jpg` (main.py:284-286, main.py:560-562).
 */
module FileNames {

  /** The allow-list of extensions, compared against the lower-cased name. */
  const ImageExtensions: seq<string> := [".jpg", ".jpeg", ".png"]

  /** The extension of every merge output, whatever the inputs were. */
  const ResultExtension: string := ".jpg"

  /**
   * Lower-casing of one character. Only ASCII letters are mapped: no other
   * character lower-cases to a letter of ".jpg", ".jpeg" or ".png", so the
   * extension test gives the same answer as Python's full `str.lower`.
   */
  function LowerChar(c: char): char
  {
    if 'A' <= c <= 'Z' then (c as int + 32) as char else c
  }

  /** `str.lower` on the characters that matter to the extension test. */
  function Lower(s: string): string
  {
    seq(|s|, i requires 0 <= i < |s| => LowerChar(s[i]))
  }

  predicate EndsWith(s: string, suffix: string)
  {
    |suffix| <= |s| && s[|s| - |suffix|..] == suffix
  }

  /** The extension test of the scan, ignoring case. */
  predicate IsImageName(f: string)
  {
    var l := Lower(f);
    EndsWith(l, ".jpg") || EndsWith(l, ".jpeg") || EndsWith(l, ".png")
  }

  /**
   * A name passes the extension test exactly when its own last characters,
   * lower-cased, spell one of the allowed extensions.
   */
  lemma ImageNameBySuffix(f: string)
    ensures IsImageName(f) <==>
      exists k :: 0 <= k < |ImageExtensions| && |ImageExtensions[k]| <= |f| &&
        Lower(f[|f| - |ImageExtensions[k]|..]) == ImageExtensions[k]
  {
    if IsImageName(f) {
      ImageNameHasSuffix(f);
    } else {
      forall k | 0 <= k < |ImageExtensions| && |ImageExtensions[k]| <= |f|
        ensures Lower(f[|f| - |ImageExtensions[k]|..]) != ImageExtensions[k]
      {
        SuffixOfLower(f, ImageExtensions[k]);
      }
    }
  }

  lemma ImageNameHasSuffix(f: string)
    requires IsImageName(f)
    ensures exists k :: 0 <= k < |ImageExtensions| && |ImageExtensions[k]| <= |f| &&
                        Lower(f[|f| - |ImageExtensions[k]|..]) == ImageExtensions[k]
  {
    var l := Lower(f);
    if EndsWith(l, ".jpg") {
      SuffixOfLower(f, ".jpg");
      assert ImageExtensions[0] == ".jpg";
    } else if EndsWith(l, ".jpeg") {
      SuffixOfLower(f, ".jpeg");
      assert ImageExtensions[1] == ".jpeg";
    } else {
      SuffixOfLower(f, ".png");
      assert ImageExtensions[2] == ".png";
    }
  }

  /** Testing a suffix of the lower-cased name is lower-casing that suffix of the name. */
  lemma SuffixOfLower(f: string, e: string)
    requires |e| <= |f|
    ensures EndsWith(Lower(f), e) <==> Lower(f[|f| - |e|..]) == e
  {
    LowerSuffix(f, |f| - |e|);
  }

  /** A suffix without capital letters survives lower-casing. */
  lemma LowerKeepsSuffix(s: string, e: string)
    requires EndsWith(s, e)
    requires forall i :: 0 <= i < |e| ==> !('A' <= e[i] <= 'Z')
    ensures EndsWith(Lower(s), e)
  {
    var l := Lower(s);
    var n := |s| - |e|;
    forall i | 0 <= i < |e| ensures l[n..][i] == e[i] {
      assert l[n + i] == LowerChar(s[n + i]);
      assert s[n..][i] == e[i];
    }
  }

  lemma LowerSuffix(s: string, k: nat)
    requires k <= |s|
    ensures Lower(s[k..]) == Lower(s)[k..]
  {
  }

  /** A name passes whatever the case of its extension. */
  lemma ImageNameIgnoresCase(x: string)
    ensures IsImageName(x + ".JPG") && IsImageName(x + ".Jpeg") && IsImageName(x + ".PNG")
  {
    LowerSuffix(x + ".JPG", |x|);
    assert (x + ".JPG")[|x|..] == ".JPG";
    assert Lower(".JPG") == ".jpg";
    LowerSuffix(x + ".Jpeg", |x|);
    assert (x + ".Jpeg")[|x|..] == ".Jpeg";
    assert Lower(".Jpeg") == ".jpeg";
    LowerSuffix(x + ".PNG", |x|);
    assert (x + ".PNG")[|x|..] == ".PNG";
    assert Lower(".PNG") == ".png";
  }

  predicate HasNonDot(s: string)
  {
    exists i :: 0 <= i < |s| && s[i] != '.'
  }

  /** Index of the last '.' in `s`, or -1 when there is none (`str.rfind`). */
  function LastDot(s: string): (r: int)
    ensures -1 <= r < |s|
    ensures r >= 0 ==> s[r] == '.'
    ensures forall j :: r < j < |s| ==> s[j] != '.'
  {
    if s == [] then -1
    else if s[|s| - 1] == '.' then |s| - 1
    else LastDot(s[..|s| - 1])
  }

  /**
   * `os.path.splitext(p)[0]` for a name without directory separators: the
   * text before the last dot, unless only dots precede it (a leading-dot
   * name such as ".png" has no extension).
   */
  function Stem(p: string): (r: string)
    ensures |r| <= |p| && r == p[..|r|]
    ensures r == p || (p[|r|] == '.' && HasNonDot(r) && forall j :: |r| < j < |p| ==> p[j] != '.')
  {
    var d := LastDot(p);
    if d >= 0 && HasNonDot(p[..d]) then p[..d] else p
  }

  /** A name with no dot, or whose only dot leads it (".png"), has no extension to drop. */
  lemma StemKeepsNameWithoutExtension(x: string)
    requires forall j :: 0 <= j < |x| ==> x[j] != '.'
    ensures Stem(x) == x
    ensures Stem("." + x) == "." + x
  {
    var p := "." + x;
    LastDotAt(p, 0);
    assert p[..0] == [];
  }

  /** The name the merge of `a` and `b` is written under in the result folder. */
  function OutputName(a: string, b: string): (r: string)
    ensures EndsWith(r, ResultExtension)
    ensures IsImageName(r)
  {
    var r := Stem(a) + "_" + Stem(b) + ResultExtension;
    assert r[|r| - |ResultExtension|..] == ResultExtension;
    LowerKeepsSuffix(r, ResultExtension);
    r
  }

  /** Splitting the output name again recovers the two stems joined by '_'. */
  lemma OutputNameSplits(a: string, b: string)
    ensures Stem(OutputName(a, b)) == Stem(a) + "_" + Stem(b)
  {
    var x := Stem(a) + "_" + Stem(b);
    assert x[|Stem(a)|] == '_';
    StemBeforeResultExtension(x);
  }

  lemma StemBeforeResultExtension(x: string)
    requires HasNonDot(x)
    ensures Stem(x + ResultExtension) == x
  {
    var p := x + ResultExtension;
    assert p[..|x|] == x;
    StemAt(p, |x|);
  }

  /** The stem ends at a dot that is the last one and has something other than dots before it. */
  lemma StemAt(p: string, d: nat)
    requires d < |p| && p[d] == '.' && HasNonDot(p[..d])
    requires forall j :: d < j < |p| ==> p[j] != '.'
    ensures Stem(p) == p[..d]
  {
    LastDotAt(p, d);
  }

  lemma LastDotAt(s: string, d: nat)
    requires d < |s| && s[d] == '.'
    requires forall j :: d < j < |s| ==> s[j] != '.'
    ensures LastDot(s) == d
  {
    if d < |s| - 1 {
      LastDotAt(s[..|s| - 1], d);
    }
  }

  /**
   * When a name ends in an allowed extension that something other than dots
   * precedes, its stem is the name without that extension.
   */
  lemma StemDropsImageExtension(f: string, k: nat)
    requires k < |ImageExtensions| && |ImageExtensions[k]| <= |f|
    requires Lower(f[|f| - |ImageExtensions[k]|..]) == ImageExtensions[k]
    requires HasNonDot(f[..|f| - |ImageExtensions[k]|])
    ensures Stem(f) == f[..|f| - |ImageExtensions[k]|]
  {
    var e := ImageExtensions[k];
    var d := |f| - |e|;
    var l := Lower(f[d..]);
    assert l[0] == LowerChar(f[d]);
    assert f[d] == '.';
    forall j | d < j < |f| ensures f[j] != '.' {
      assert l[j - d] == LowerChar(f[j]);
      assert l[j - d] != '.';
    }
    StemAt(f, d);
  }

  /**
   * The output name is not injective: moving an underscore between the two
   * stems, or changing either extension, gives the same result file.
   */
  lemma OutputNameCollides(x: string, y: string, z: string)
    requires |x| > 0 && x[0] != '.' && |y| > 0 && y[0] != '.' && |z| > 0 && z[0] != '.'
    ensures OutputName(x + "_" + y + ".jpg", z + ".jpg") == OutputName(x + ".jpg", y + "_" + z + ".jpg")
  {
    var xy := x + "_" + y;
    var yz := y + "_" + z;
    assert xy[0] != '.' && yz[0] != '.';
    StemOfShortName(xy, ".jpg");
    StemOfShortName(z, ".jpg");
    StemOfShortName(x, ".jpg");
    StemOfShortName(yz, ".jpg");
    calc {
      OutputName(xy + ".jpg", z + ".jpg");
      xy + "_" + z + ResultExtension;
      { assert xy + "_" + z == x + "_" + yz; }
      x + "_" + yz + ResultExtension;
      OutputName(x + ".jpg", yz + ".jpg");
    }
  }

  /** The input extensions play no part in the output name. */
  lemma OutputNameIgnoresExtensions(x: string, y: string, e1: string, e2: string, e3: string, e4: string)
    requires |x| > 0 && x[0] != '.' && |y| > 0 && y[0] != '.'
    requires OneDotExtension(e1) && OneDotExtension(e2) && OneDotExtension(e3) && OneDotExtension(e4)
    ensures OutputName(x + e1, y + e2) == OutputName(x + e3, y + e4)
  {
    StemOfShortName(x, e1);
    StemOfShortName(y, e2);
    StemOfShortName(x, e3);
    StemOfShortName(y, e4);
  }

  /** A dot followed by anything but dots, such as ".jpg" or ".JPEG". */
  predicate OneDotExtension(e: string)
  {
    |e| > 0 && e[0] == '.' && forall j :: 0 < j < |e| ==> e[j] != '.'
  }

  /** A name made of a stem that does not start with a dot and a one-dot extension splits at that dot. */
  lemma StemOfShortName(x: string, e: string)
    requires |x| > 0 && x[0] != '.' && |e| > 0 && e[0] == '.'
    requires forall j :: 0 < j < |e| ==> e[j] != '.'
    ensures Stem(x + e) == x
  {
    var p := x + e;
    assert p[..|x|] == x;
    assert p[..|x|][0] != '.';
    StemAt(p, |x|);
  }
}
