/** The category-image upload rules: which files are accepted (by the
    extension of the original name, as `path.extname` computes it on POSIX),
    the size limit, and the stored file name. The clock is a parameter. */
module Upload {
  import opened JsText
  import opened JsNumber

  /** Length of `p` without its trailing '/' characters. */
  function NoTrailingSlashes(p: string): (m: nat)
    ensures m <= |p|
    ensures m > 0 ==> p[m - 1] != '/'
    ensures forall i :: m <= i < |p| ==> p[i] == '/'
  {
    if p == [] then 0
    else if p[|p| - 1] == '/' then NoTrailingSlashes(p[..|p| - 1])
    else |p|
  }

  /** Where the path component ending at `m` begins. */
  function ComponentStart(p: string, m: nat): (k: nat)
    requires m <= |p|
    ensures k <= m
    ensures k > 0 ==> p[k - 1] == '/'
    ensures forall i :: k <= i < m ==> p[i] != '/'
  {
    if m == 0 || p[m - 1] == '/' then m else ComponentStart(p, m - 1)
  }

  /** The last path component, trailing separators ignored: the run of
      non-'/' characters that ends where the trailing '/'s begin. */
  function BaseName(p: string): (c: string)
    ensures forall i :: 0 <= i < |c| ==> c[i] != '/'
    ensures |c| <= NoTrailingSlashes(p)
    ensures c == p[NoTrailingSlashes(p) - |c|..NoTrailingSlashes(p)]
    ensures NoTrailingSlashes(p) - |c| > 0 ==> p[NoTrailingSlashes(p) - |c| - 1] == '/'
  {
    var m := NoTrailingSlashes(p);
    p[ComponentStart(p, m)..m]
  }

  /** Position of the last '.' of `c`. */
  function LastDot(c: string): (r: Option<nat>)
    ensures r.Some? ==> r.value < |c| && c[r.value] == '.' && forall i :: r.value < i < |c| ==> c[i] != '.'
    ensures r.None? ==> forall i :: 0 <= i < |c| ==> c[i] != '.'
  {
    if c == [] then None
    else if c[|c| - 1] == '.' then Some(|c| - 1)
    else LastDot(c[..|c| - 1])
  }

  /** The extension of one path component `c`. */
  function ComponentExt(c: string): (e: string)
    requires forall i :: 0 <= i < |c| ==> c[i] != '/'
    ensures e == [] <==> (forall d :: 0 < d < |c| ==> c[d] != '.') || c == ".."
    ensures e != [] ==> e[0] == '.' && |e| < |c| && e == c[|c| - |e|..]
    ensures forall i :: 0 < i < |e| ==> e[i] != '.' && e[i] != '/'
  {
    match LastDot(c)
    case None => []
    case Some(d) =>
      if d == 0 || c == ".." then []
      else
        assert c[d] == '.';
        assert forall i :: 0 < i < |c| - d ==> c[d..][i] == c[d + i];
        c[d..]
  }

  /** `path.extname(p)`: from the last '.' of the last component to its end,
      or empty when that component has no '.' after its first character or
      is "..". */
  function ExtName(p: string): (e: string)
    ensures e == [] <==> (forall d :: 0 < d < |BaseName(p)| ==> BaseName(p)[d] != '.') || BaseName(p) == ".."
    ensures e != [] ==> e[0] == '.' && |e| < |BaseName(p)| && e == BaseName(p)[|BaseName(p)| - |e|..]
    ensures forall i :: 0 < i < |e| ==> e[i] != '.' && e[i] != '/'
  {
    ComponentExt(BaseName(p))
  }

  /** `/jpeg|jpg|png|webp/.test(e)`: one of the alternatives occurs anywhere
      in `e`. */
  ghost predicate HasImageType(e: string) {
    Contains(e, "jpeg") || Contains(e, "jpg") || Contains(e, "png") || Contains(e, "webp")
  }

  const NotAnImage := "Only images allowed!"

  /** The multer `fileFilter`: the lower-cased extension must contain one of
      the image types anywhere in it. */
  function IsImageName(originalName: string): (b: bool)
    ensures b <==> HasImageType(Lower(ExtName(originalName)))
  {
    var e := Lower(ExtName(originalName));
    Includes(e, "jpeg") || Includes(e, "jpg") || Includes(e, "png") || Includes(e, "webp")
  }

  /** `limits.fileSize`: two mebibytes. */
  const MaxFileSize: nat := 2 * 1024 * 1024

  /** The stored name: the clock's milliseconds, '-', and the original name
      unchanged. */
  function CategoryFileName(now: nat, originalName: string): (f: string)
    ensures f == NatToString(now) + "-" + originalName
    ensures f[|f| - |originalName|..] == originalName
    ensures NoSpaces(f) <==> NoSpaces(originalName)
  {
    var stamp := NatToString(now) + "-";
    assert forall i :: 0 <= i < |stamp| ==> !IsSpace(stamp[i]);
    var f := stamp + originalName;
    assert forall i :: 0 <= i < |originalName| ==> f[|stamp| + i] == originalName[i];
    f
  }

  /** `parseInt` of a stored name gives back the timestamp. */
  lemma CategoryFileNameStamp(now: nat, originalName: string)
    ensures ParseInt(Some(CategoryFileName(now, originalName))) == Num(now)
  {
    var digits, rest := NatToString(now), "-" + originalName;
    assert CategoryFileName(now, originalName) == digits + rest;
    ParseIntStopsAtDash(digits, rest);
  }

  datatype UploadOutcome = Stored(fileName: string) | Refused(message: string) | TooLarge

  /** The category upload: the filter runs first, then the size limit; an
      accepted file is stored under `CategoryFileName`. */
  function CategoryUpload(now: nat, originalName: string, size: nat): (r: UploadOutcome)
    ensures r.Stored? <==> IsImageName(originalName) && size <= MaxFileSize
    ensures r.Refused? <==> !IsImageName(originalName)
    ensures r.Refused? ==> r.message == NotAnImage
    ensures r.Stored? ==> r.fileName == CategoryFileName(now, originalName)
  {
    if !IsImageName(originalName) then Refused(NotAnImage)
    else if size > MaxFileSize then TooLarge
    else Stored(CategoryFileName(now, originalName))
  }

  /** The limit is exactly two mebibytes: an accepted file of that size is
      stored, one byte more is not. */
  lemma SizeLimit(now: nat, name: string)
    requires IsImageName(name)
    ensures MaxFileSize == 2097152
    ensures CategoryUpload(now, name, 2097152).Stored?
    ensures CategoryUpload(now, name, 2097153).TooLarge?
  {
    assert CategoryUpload(now, name, 2097153) == TooLarge;
  }

  /** The extension of a name without '/' is its part from the last '.', when
      that '.' is not the first character. */
  lemma ExtOfPlainName(p: string, d: nat)
    requires forall i :: 0 <= i < |p| ==> p[i] != '/'
    requires 0 < d < |p| && p[d] == '.' && forall i :: d < i < |p| ==> p[i] != '.'
    requires p != ".."
    ensures ExtName(p) == p[d..]
  {
    BaseNameOf(p);
    assert p[d] == '.';
    assert LastDot(p).Some?;
    assert LastDot(p).value == d;
  }

  /** A name without '/' whose only '.' (if any) comes first has no extension. */
  lemma NoExtension(p: string)
    requires forall i :: 0 <= i < |p| ==> p[i] != '/'
    requires forall i :: 0 < i < |p| ==> p[i] != '.'
    ensures ExtName(p) == []
  {
    BaseNameOf(p);
  }

  /** A name with no '/' is its own last component. */
  lemma BaseNameOf(p: string)
    requires forall i :: 0 <= i < |p| ==> p[i] != '/'
    ensures BaseName(p) == p
  {
    assert NoTrailingSlashes(p) == |p|;
  }

  /** An extension whose characters, lower-cased, hold `png` from its second
      character on is accepted. */
  lemma PngIsImage(e: string)
    requires |e| >= 4 && e[1] in "pP" && e[2] in "nN" && e[3] in "gG"
    ensures Contains(Lower(e), "png")
  {
    var l := Lower(e);
    assert l[1] == 'p' && l[2] == 'n' && l[3] == 'g';
    assert l[1..4] == "png";
    assert OccursAt(l, "png", 1);
  }

  /** The test is unanchored and runs on the lower-cased extension: any
      extension that starts with "png" in any case, such as that of
      "photo.pngx" or "photo.PNG", is accepted. */
  lemma UnanchoredExtension(p: string, d: nat)
    requires forall i :: 0 <= i < |p| ==> p[i] != '/'
    requires 0 < d && d + 3 < |p| && p[d] == '.' && forall i :: d < i < |p| ==> p[i] != '.'
    requires p[d + 1] in "pP" && p[d + 2] in "nN" && p[d + 3] in "gG"
    ensures IsImageName(p)
  {
    assert p != "..";
    ExtOfPlainName(p, d);
    PngIsImage(p[d..]);
  }

  /** A name without '/' whose only '.' (if any) comes first, such as "png"
      or the dotfile ".png", has no extension and is refused. */
  lemma NoExtensionRefused(p: string)
    requires forall i :: 0 <= i < |p| ==> p[i] != '/'
    requires forall i :: 0 < i < |p| ==> p[i] != '.'
    ensures !IsImageName(p)
  {
    NoExtension(p);
    NothingInEmpty();
  }

  lemma NothingInEmpty()
    ensures !HasImageType(Lower([]))
  {
  }
}
