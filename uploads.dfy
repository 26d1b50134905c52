/**
 * The file-name check of the image upload endpoint (`allowed_file`): a name
 * is accepted when it contains a dot and the text after its last dot,
 * lower-cased, is one of the image extensions.
 */
module Uploads {
  import opened Common

  /** `ALLOWED_EXTENSIONS`. */
  const AllowedExtensions: set<string> := {"png", "jpg", "jpeg", "gif"}

  /** `str.lower()` on one character, for the ASCII capitals. */
  function LowerChar(c: char): char {
    if 'A' <= c <= 'Z' then (c as int + 32) as char else c
  }

  function Lower(s: string): (r: string)
    ensures |r| == |s|
    ensures forall i :: 0 <= i < |s| ==> r[i] == LowerChar(s[i])
  {
    seq(|s|, i requires 0 <= i < |s| => LowerChar(s[i]))
  }

  /** The position of the last dot, where `rsplit('.', 1)` cuts. */
  function LastDot(s: string): (r: Option<nat>)
    ensures r.None? <==> '.' !in s
    ensures r.Some? ==> r.value < |s| && s[r.value] == '.' && '.' !in s[r.value + 1..]
  {
    if |s| == 0 then None
    else if s[|s| - 1] == '.' then Some(|s| - 1)
    else
      var init := s[..|s| - 1];
      var r := LastDot(init);
      assert forall i :: 0 <= i < |init| ==> init[i] == s[i];
      assert s == init + [s[|s| - 1]];
      if r.Some? then
        assert s[r.value + 1..] == init[r.value + 1..] + [s[|s| - 1]];
        r
      else r
  }

  /** `filename.rsplit('.', 1)[1]`: the text after the last dot. */
  function Extension(name: string): string
    requires '.' in name
  {
    name[LastDot(name).value + 1..]
  }

  /** `allowed_file`. */
  predicate AllowedFile(name: string) {
    '.' in name && Lower(Extension(name)) in AllowedExtensions
  }

  /**
   * A name is accepted exactly when it is some stem, a dot, and a dot-free
   * extension that lower-cases to an allowed one.
   */
  lemma AllowedFileSpec(name: string)
    ensures AllowedFile(name) <==>
      exists k :: 0 <= k < |name| && name[k] == '.' && '.' !in name[k + 1..] &&
        Lower(name[k + 1..]) in AllowedExtensions
  {
    if '.' in name {
      var d := LastDot(name).value;
      forall k | 0 <= k < |name| && name[k] == '.' && '.' !in name[k + 1..]
        ensures k == d
      {
      }
    }
  }

  /** A name built from a stem and a dot-free extension is judged by that extension alone. */
  lemma AllowedBySuffix(stem: string, ext: string)
    requires '.' !in ext
    ensures AllowedFile(stem + "." + ext) <==> Lower(ext) in AllowedExtensions
  {
    var name := stem + "." + ext;
    assert name[|stem|] == '.';
    assert name[|stem| + 1..] == ext;
    AllowedFileSpec(name);
  }

  lemma LowerSlice(s: string, k: nat)
    requires k <= |s|
    ensures Lower(s)[k..] == Lower(s[k..])
  {
  }

  /** Lower-casing moves no dot, so the last dot stays where it was. */
  lemma {:induction false} LowerKeepsLastDot(s: string)
    ensures LastDot(Lower(s)) == LastDot(s)
  {
    if |s| > 0 {
      var n := |s| - 1;
      assert Lower(s)[..n] == Lower(s[..n]);
      LowerKeepsLastDot(s[..n]);
    }
  }

  lemma LowerIdempotent(s: string)
    ensures Lower(Lower(s)) == Lower(s)
  {
  }

  /** Lower-casing a name does not change its verdict. */
  lemma AllowedFileIgnoresCase(name: string)
    ensures AllowedFile(Lower(name)) <==> AllowedFile(name)
  {
    LowerKeepsLastDot(name);
    if '.' in name {
      var d := LastDot(name).value;
      LowerSlice(name, d + 1);
      assert Extension(Lower(name)) == Lower(Extension(name));
      LowerIdempotent(Extension(name));
    }
  }

  /** An upper-case extension passes. */
  lemma UpperCaseExtension(name: string)
    requires name == "photo.JPG"
    ensures AllowedFile(name)
  {
    AllowedBySuffix("photo", "JPG");
    assert Lower("JPG") == "jpg";
  }

  /** Only the text after the last dot counts: an earlier dot does not hide a good extension. */
  lemma LastDotCounts(name: string)
    requires name == "scan.final.png"
    ensures AllowedFile(name)
  {
    AllowedBySuffix("scan.final", "png");
    assert Lower("png") == "png";
  }

  /** Only the text after the last dot counts: a good extension before it does not help. */
  lemma InnerExtensionIgnored(name: string)
    requires name == "image.png.exe"
    ensures !AllowedFile(name)
  {
    AllowedBySuffix("image.png", "exe");
    assert Lower("exe") == "exe";
  }

  /** A dot with an empty stem passes; no dot, or nothing after it, does not. */
  lemma DotEdgeCases(hidden: string, bare: string, trailing: string)
    requires hidden == ".gif" && bare == "png" && trailing == "photo."
    ensures AllowedFile(hidden) && !AllowedFile(bare) && !AllowedFile(trailing)
  {
    AllowedBySuffix("", "gif");
    assert Lower("gif") == "gif";
    AllowedBySuffix("photo", "");
  }
}
