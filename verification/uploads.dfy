/** The upload filter for catalog images: a file name is accepted when the
    text after its last '.' is one of five lower-case image extensions. */
module Uploads {

  const AllowedExtensions: seq<string> := ["jpg", "jpeg", "png", "webp", "avif"]

  /** Python's `s.split(sep)[-1]`: the text after the last `sep`, or all of
      `s` when `sep` does not occur. */
  function LastSegment(s: string, sep: char): (r: string)
    ensures sep !in r
    ensures |r| <= |s| && r == s[|s| - |r|..]
    ensures |r| < |s| ==> s[|s| - |r| - 1] == sep
  {
    if |s| == 0 then ""
    else if s[|s| - 1] == sep then ""
    else LastSegment(s[..|s| - 1], sep) + [s[|s| - 1]]
  }

  predicate HasSuffix(s: string, suffix: string) {
    |suffix| <= |s| && s[|s| - |suffix|..] == suffix
  }

  /** The same rule read from the outside: the name is an allowed extension
      on its own, or ends in '.' followed by one. */
  predicate NamesAllowedImage(filename: string) {
    exists i :: 0 <= i < |AllowedExtensions| &&
      (filename == AllowedExtensions[i] || HasSuffix(filename, "." + AllowedExtensions[i]))
  }

  lemma {:induction false} LastSegmentOfDottedSuffix(prefix: string, ext: string)
    requires '.' !in ext
    ensures LastSegment(prefix + "." + ext, '.') == ext
  {
    var s := prefix + "." + ext;
    if ext == [] {
      assert s[|s| - 1] == '.';
    } else {
      var init := ext[..|ext| - 1];
      assert s[|s| - 1] == ext[|ext| - 1];
      assert s[..|s| - 1] == prefix + "." + init;
      LastSegmentOfDottedSuffix(prefix, init);
      assert init + [ext[|ext| - 1]] == ext;
    }
  }

  lemma {:induction false} LastSegmentWithoutSeparator(s: string)
    requires '.' !in s
    ensures LastSegment(s, '.') == s
  {
    if s != [] {
      var init := s[..|s| - 1];
      assert s[|s| - 1] != '.';
      assert '.' !in init by {
        forall i | 0 <= i < |init| ensures init[i] != '.' {
          assert init[i] == s[i];
        }
      }
      LastSegmentWithoutSeparator(init);
      assert LastSegment(s, '.') == LastSegment(init, '.') + [s[|s| - 1]];
      assert init + [s[|s| - 1]] == s;
    }
  }

  lemma AllowedExtensionsAreUndotted(i: int)
    requires 0 <= i < |AllowedExtensions|
    ensures '.' !in AllowedExtensions[i]
  {
  }

  lemma ValidNameHasAllowedSuffix(filename: string)
    ensures LastSegment(filename, '.') in AllowedExtensions ==> NamesAllowedImage(filename)
  {
    if LastSegment(filename, '.') in AllowedExtensions {
      var r := LastSegment(filename, '.');
      var i :| 0 <= i < |AllowedExtensions| && AllowedExtensions[i] == r;
      if |r| == |filename| {
        assert filename == AllowedExtensions[i];
      } else {
        var k := |filename| - |r| - 1;
        assert filename[k..] == [filename[k]] + filename[k + 1..];
        assert HasSuffix(filename, "." + AllowedExtensions[i]);
      }
    }
  }

  lemma AllowedSuffixIsValid(filename: string, i: int)
    requires 0 <= i < |AllowedExtensions|
    requires filename == AllowedExtensions[i] || HasSuffix(filename, "." + AllowedExtensions[i])
    ensures LastSegment(filename, '.') == AllowedExtensions[i]
  {
    var e := AllowedExtensions[i];
    AllowedExtensionsAreUndotted(i);
    if filename == e {
      LastSegmentWithoutSeparator(e);
    } else {
      var prefix := filename[..|filename| - |e| - 1];
      assert filename == prefix + filename[|filename| - |e| - 1..];
      assert filename == prefix + "." + e;
      LastSegmentOfDottedSuffix(prefix, e);
    }
  }

  /** `image_extension_valid`: the text after the last '.' is on the
      whitelist. Read from the outside, it accepts exactly the names that are,
      or end in a dot followed by, an allowed extension; the comparison is
      case-sensitive. */
  function ImageExtensionValid(filename: string): (ok: bool)
    ensures ok <==> NamesAllowedImage(filename)
  {
    var ok := LastSegment(filename, '.') in AllowedExtensions;
    if ok then
      ValidNameHasAllowedSuffix(filename);
      ok
    else
      NoAllowedSuffix(filename);
      ok
  }

  lemma NoAllowedSuffix(filename: string)
    ensures LastSegment(filename, '.') !in AllowedExtensions ==> !NamesAllowedImage(filename)
  {
    if LastSegment(filename, '.') !in AllowedExtensions {
      forall i | 0 <= i < |AllowedExtensions|
        ensures !(filename == AllowedExtensions[i] || HasSuffix(filename, "." + AllowedExtensions[i]))
      {
        if filename == AllowedExtensions[i] || HasSuffix(filename, "." + AllowedExtensions[i]) {
          AllowedSuffixIsValid(filename, i);
        }
      }
    }
  }

  lemma ExamplePng()
    ensures ImageExtensionValid("photo.png")
  {
    LastSegmentOfDottedSuffix("photo", "png");
    assert "photo" + "." + "png" == "photo.png";
  }

  lemma ExampleUpperCase()
    ensures !ImageExtensionValid("photo.JPG")
  {
    LastSegmentOfDottedSuffix("photo", "JPG");
    assert "photo" + "." + "JPG" == "photo.JPG";
  }
}
