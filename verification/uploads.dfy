/** The image-upload route of the product routes: the file-type filter, the
    five-file limit, and the public path handed back for each stored file. */
module Uploads {
  import opened Common
  import opened Text

  /** `/jpg|jpeg|png/.test(s)`: the pattern is unanchored, so any occurrence
      anywhere in `s` matches. */
  predicate MatchesImageType(s: string) {
    Contains(s, "jpg") || Contains(s, "jpeg") || Contains(s, "png")
  }

  /** `checkFileType`: the extension is lower-cased before the test, the
      mimetype is tested as sent. */
  predicate AcceptsUpload(ext: string, mimetype: string) {
    MatchesImageType(ToLower(ext)) && MatchesImageType(mimetype)
  }

  /** A file is accepted exactly when one of the three patterns occurs in the
      lower-cased extension and one occurs in the mimetype. */
  lemma AcceptsUploadIff(ext: string, mimetype: string)
    ensures AcceptsUpload(ext, mimetype) <==>
      (exists i :: OccursAt(ToLower(ext), "jpg", i) || OccursAt(ToLower(ext), "jpeg", i) || OccursAt(ToLower(ext), "png", i)) &&
      (exists i :: OccursAt(mimetype, "jpg", i) || OccursAt(mimetype, "jpeg", i) || OccursAt(mimetype, "png", i))
  {
    var e := ToLower(ext);
    ContainsIffOccurs(e, "jpg");
    ContainsIffOccurs(e, "jpeg");
    ContainsIffOccurs(e, "png");
    ContainsIffOccurs(mimetype, "jpg");
    ContainsIffOccurs(mimetype, "jpeg");
    ContainsIffOccurs(mimetype, "png");
  }

  /** An occurrence at a known index is enough for `Contains`. */
  lemma OccursContains(s: string, sub: string, i: int)
    requires OccursAt(s, sub, i)
    ensures Contains(s, sub)
  {
    ContainsIffOccurs(s, sub);
  }

  /** Upper case is folded in the extension: `.JPG` with `image/jpeg` passes. */
  lemma AcceptsUpperCaseExtension()
    ensures AcceptsUpload(".JPG", "image/jpeg")
  {
    var e := ToLower(".JPG");
    assert e[1] == 'j' && e[2] == 'p' && e[3] == 'g';
    assert e[1..4] == "jpg";
    OccursContains(e, "jpg", 1);
    var m := "image/jpeg";
    assert m[6..10] == "jpeg";
    OccursContains(m, "jpeg", 6);
  }

  /** The match is unanchored: an extension such as `.pngx` passes. */
  lemma AcceptsUnanchoredExtension()
    ensures AcceptsUpload(".pngx", "image/png")
  {
    var e := ToLower(".pngx");
    assert e[1] == 'p' && e[2] == 'n' && e[3] == 'g';
    assert e[1..4] == "png";
    OccursContains(e, "png", 1);
    var m := "image/png";
    assert m[6..9] == "png";
    OccursContains(m, "png", 6);
  }

  /** The mimetype is not folded: `.png` with `IMAGE/PNG` is refused. */
  lemma RejectsUpperCaseMimetype()
    ensures !AcceptsUpload(".png", "IMAGE/PNG")
  {
    var m := "IMAGE/PNG";
    assert forall k :: 0 <= k < |m| ==> m[k] in "IMAGE/PN";
    NoPatternIn(m);
    assert !MatchesImageType(m);
  }

  /** Whatever the extension says, a mimetype with no lower-case `j` or `p`
    (`image/gif`, `image/tiff`, `image/avif`) is refused. */
  lemma RejectsMimetypeWithoutPatternLetters(ext: string, mimetype: string)
    requires forall k :: 0 <= k < |mimetype| ==> mimetype[k] != 'j' && mimetype[k] != 'p'
    ensures !AcceptsUpload(ext, mimetype)
  {
    NoPatternIn(mimetype);
  }

  /** A string with no lower-case `j` or `p` contains none of the patterns. */
  lemma NoPatternIn(s: string)
    requires forall k :: 0 <= k < |s| ==> s[k] != 'j' && s[k] != 'p'
    ensures !MatchesImageType(s)
  {
    ContainsIffOccurs(s, "jpg");
    ContainsIffOccurs(s, "jpeg");
    ContainsIffOccurs(s, "png");
    forall i ensures !OccursAt(s, "jpg", i) && !OccursAt(s, "png", i) {
      if 0 <= i && i + 3 <= |s| {
        assert s[i..i + 3][0] == s[i];
      }
    }
    forall i ensures !OccursAt(s, "jpeg", i) {
      if 0 <= i && i + 4 <= |s| {
        assert s[i..i + 4][0] == s[i];
      }
    }
  }

  /** `/${file.path.replace('\\', '/')}`: a string pattern in `replace`
      rewrites only the first backslash. */
  function UploadPath(path: string): (r: string)
    ensures |r| == |path| + 1 && r[0] == '/'
  {
    "/" + ReplaceFirst(path, '\\', '/')
  }

  /** The public path is the stored path behind a slash, with the first
      backslash, and no other character, turned into a slash. */
  lemma UploadPathShape(path: string)
    ensures var r := UploadPath(path);
      && (forall i :: 0 <= i < |path| && i != FirstIndex(path, '\\') ==> r[i + 1] == path[i])
      && (FirstIndex(path, '\\') < |path| ==> r[FirstIndex(path, '\\') + 1] == '/')
  {
    ReplaceFirstChangesOnlyFirst(path, '\\', '/');
  }

  /** A Windows path with two separators keeps its second backslash. */
  lemma UploadPathKeepsLaterBackslashes()
    ensures UploadPath("up\\a\\b") == "/up/a\\b"
  {
    var p := "up\\a\\b";
    assert p[0] != '\\' && p[1] != '\\' && p[2] == '\\';
    assert FirstIndex(p, '\\') == 2;
    assert ReplaceFirst(p, '\\', '/') == p[..2] + "/" + p[3..];
  }

  /** `req.files.map(...)`: one path per stored file, in upload order. */
  function UploadPaths(paths: seq<string>): (r: seq<string>)
    ensures |r| == |paths|
    ensures forall i :: 0 <= i < |paths| ==> r[i] == UploadPath(paths[i])
  {
    seq(|paths|, i requires 0 <= i < |paths| => UploadPath(paths[i]))
  }

  /** A file as multer sees it: the original name's extension, the mimetype
      the browser sent, and the path the disk storage gave it. */
  datatype UploadFile = UploadFile(ext: string, mimetype: string, path: string)

  /** `upload.array('images', 5)`. */
  const MaxFiles := 5

  predicate AllAccepted(files: seq<UploadFile>) {
    forall i :: 0 <= i < |files| ==> AcceptsUpload(files[i].ext, files[i].mimetype)
  }

  /** `POST /api/products/upload`: the request fails as a whole when it
      carries more than five files or the filter refuses any one of them;
      otherwise it answers with one public path per file, in order. */
  function UploadRequest(files: seq<UploadFile>): (r: Option<seq<string>>)
    ensures r.Some? <==> |files| <= MaxFiles && AllAccepted(files)
    ensures r.Some? ==> |r.value| == |files|
    ensures r.Some? ==> forall i :: 0 <= i < |files| ==> r.value[i] == UploadPath(files[i].path)
  {
    if |files| <= MaxFiles && AllAccepted(files) then
      Some(UploadPaths(seq(|files|, i requires 0 <= i < |files| => files[i].path)))
    else None
  }

  /** One refused file, anywhere in the request, loses every other file too. */
  lemma OneRefusedFileFailsAll(before: seq<UploadFile>, f: UploadFile, after: seq<UploadFile>)
    requires !AcceptsUpload(f.ext, f.mimetype)
    ensures UploadRequest(before + [f] + after).None?
  {
    assert (before + [f] + after)[|before|] == f;
  }
}
