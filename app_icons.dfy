/** Icon materialisation of the Android device-info channel (MainActivity.kt):
    the size rule of `drawableToBitmap` and the cache-file naming of `saveAppIcon`.
    Drawing, PNG compression and the file write itself are foreign; only their
    outcome (does it fail?) and the chosen dimensions and path are modelled. */
module AppIcons {
  import opened Wrappers

  /** A raster image; only its dimensions are modelled. */
  datatype Bitmap = Bitmap(width: int, height: int)

  /** An icon resource as the package manager hands it out.
      `ownBitmap` is the ready-made raster of a BitmapDrawable whose bitmap is
      non-null, and None for every other drawable; `renderFails` says that
      creating the bitmap or drawing onto it throws. */
  datatype Drawable = Drawable(
    ownBitmap: Option<Bitmap>,
    intrinsicWidth: int,
    intrinsicHeight: int,
    renderFails: bool)

  /** Side of the square bitmap used when the drawable has no usable intrinsic size. */
  const DefaultIconSize: int := 48

  /** Name of the icon subdirectory of the application's cache directory. */
  const IconDirName: string := "app_icons"

  /** `drawableToBitmap`: a ready-made raster is returned as it is; otherwise the
      drawable is rendered at its intrinsic size, or at 48x48 when either
      intrinsic dimension is zero or negative; any exception yields None. */
  function DrawableToBitmap(d: Drawable): (b: Option<Bitmap>)
    ensures d.ownBitmap.Some? ==> b == d.ownBitmap
    ensures d.ownBitmap.None? ==> (b.None? <==> d.renderFails)
    ensures d.ownBitmap.None? && b.Some? ==> b.value.width > 0 && b.value.height > 0
    ensures d.ownBitmap.None? && b.Some? && d.intrinsicWidth > 0 && d.intrinsicHeight > 0 ==>
              b.value == Bitmap(d.intrinsicWidth, d.intrinsicHeight)
    ensures d.ownBitmap.None? && b.Some? && (d.intrinsicWidth <= 0 || d.intrinsicHeight <= 0) ==>
              b.value == Bitmap(48, 48)
  {
    if d.ownBitmap.Some? then d.ownBitmap
    else if d.renderFails then None
    else if d.intrinsicWidth <= 0 || d.intrinsicHeight <= 0 then
      Some(Bitmap(DefaultIconSize, DefaultIconSize))
    else
      Some(Bitmap(d.intrinsicWidth, d.intrinsicHeight))
  }

  /** `packageName.replace(".", "_")`. */
  function ReplaceDots(s: string): (r: string)
    ensures |r| == |s|
    ensures forall i :: 0 <= i < |s| ==> r[i] == (if s[i] == '.' then '_' else s[i])
  {
    if s == [] then [] else [if s[0] == '.' then '_' else s[0]] + ReplaceDots(s[1..])
  }

  /** The name of the cached icon file of a package. */
  function IconFileName(packageName: string): (name: string)
    ensures |name| == |packageName| + 4 && name[|packageName|..] == ".png"
    ensures forall i :: 0 <= i < |packageName| ==> name[i] != '.'
    ensures forall i :: 0 <= i < |packageName| ==>
              name[i] == (if packageName[i] == '.' then '_' else packageName[i])
  {
    ReplaceDots(packageName) + ".png"
  }

  /** The absolute path of a package's cached icon: the file `IconFileName`
      inside `app_icons` under the cache directory (given without a trailing
      separator, as Android reports it). */
  function IconFilePath(cacheDir: string, packageName: string): (path: string)
    ensures |path| == |cacheDir| + |IconDirName| + 2 + |IconFileName(packageName)|
    ensures path[..|cacheDir|] == cacheDir
    ensures path[|cacheDir|..|cacheDir| + |IconDirName| + 2] == "/app_icons/"
    ensures path[|cacheDir| + |IconDirName| + 2..] == IconFileName(packageName)
  {
    cacheDir + "/" + IconDirName + "/" + IconFileName(packageName)
  }

  predicate DotOrUnderscore(c: char) {
    c == '.' || c == '_'
  }

  /** Two packages share one icon file exactly when their names differ only by
      exchanging '.' and '_' (so "a.b" and "a_b" collide). */
  lemma IconFileNameCollision(p: string, q: string)
    ensures IconFileName(p) == IconFileName(q) <==>
              |p| == |q| &&
              forall i :: 0 <= i < |p| ==> p[i] == q[i] || (DotOrUnderscore(p[i]) && DotOrUnderscore(q[i]))
  {
    if IconFileName(p) == IconFileName(q) {
      assert |p| == |q|;
      forall i | 0 <= i < |p|
        ensures p[i] == q[i] || (DotOrUnderscore(p[i]) && DotOrUnderscore(q[i]))
      {
        assert IconFileName(p)[i] == IconFileName(q)[i];
      }
    }
    if |p| == |q| && forall i :: 0 <= i < |p| ==> p[i] == q[i] || (DotOrUnderscore(p[i]) && DotOrUnderscore(q[i])) {
      assert ReplaceDots(p) == ReplaceDots(q);
    }
  }

  /** The file system as `saveAppIcon` meets it: the cache directory's absolute
      path and the icon files that cannot be created or written. */
  datatype IconCache = IconCache(cacheDir: string, unwritable: set<string>)

  /** `saveAppIcon`: renders the drawable and writes it as PNG to its cache file;
      a rendering failure or an I/O failure yields None, never an exception. */
  function SaveAppIcon(d: Drawable, packageName: string, cache: IconCache): (path: Option<string>)
    ensures path.Some? <==>
              DrawableToBitmap(d).Some? && IconFilePath(cache.cacheDir, packageName) !in cache.unwritable
    ensures path.Some? ==> path.value == IconFilePath(cache.cacheDir, packageName)
  {
    match DrawableToBitmap(d)
    case None => None
    case Some(_) =>
      var file := IconFilePath(cache.cacheDir, packageName);
      if file in cache.unwritable then None else Some(file)
  }
}
