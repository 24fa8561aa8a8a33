/** Path derivation of `inject_api_key` (ios/scripts/inject_env.rb): Ruby's
    `File.dirname` and `File.join` on POSIX paths, and the two files the
    script touches. `File.expand_path(__FILE__)` is an input: the script's
    absolute path. */
module EnvPaths {
  import opened Wrappers

  const EnvFileName: string := ".env"
  const AppDelegateRelPath: string := "Runner/AppDelegate.swift"

  /** Number of '/' at the start of `s`. */
  function LeadingSlashes(s: string): (n: nat)
    ensures n <= |s|
    ensures forall k :: 0 <= k < n ==> s[k] == '/'
    ensures n < |s| ==> s[n] != '/'
  {
    if s != [] && s[0] == '/' then 1 + LeadingSlashes(s[1..]) else 0
  }

  /** The end of the run of '/' that starts at `i`. */
  function SlashRunEnd(s: string, i: nat): (j: nat)
    requires i <= |s|
    ensures i <= j <= |s|
    ensures forall k :: i <= k < j ==> s[k] == '/'
    ensures j < |s| ==> s[j] != '/'
    decreases |s| - i
  {
    if i < |s| && s[i] == '/' then SlashRunEnd(s, i + 1) else i
  }

  /** A run of separators starts at `q`, is not the leading run of the path,
      and is followed by something other than a separator. */
  predicate SeparatorRunAt(s: string, q: nat)
    requires q < |s|
  {
    0 < q && s[q] == '/' && s[q - 1] != '/' && SlashRunEnd(s, q) < |s|
  }

  /** The scan of Ruby's `strrdirsep` from position `i`, which is not inside a
      run of separators: the start of the last run of separators that is
      followed by something other than a separator; `last` is the run found
      before `i`, returned when there is none from `i` on. */
  function LastSeparatorRun(s: string, i: nat, last: Option<nat>): (r: Option<nat>)
    requires i <= |s|
    requires i < |s| && s[i] == '/' ==> 0 < i && s[i - 1] != '/'
    requires last.Some? ==> last.value < i
    ensures r == last <==> forall q :: i <= q < |s| ==> !SeparatorRunAt(s, q)
    ensures r != last ==> r.Some? && i <= r.value < |s| && SeparatorRunAt(s, r.value)
    ensures r != last ==> forall q :: r.value < q < |s| ==> !SeparatorRunAt(s, q)
    decreases |s| - i
  {
    if i == |s| then last
    else if s[i] == '/' then
      var j := SlashRunEnd(s, i);
      if j == |s| then last
      else assert SeparatorRunAt(s, i); LastSeparatorRun(s, j, Some(i))
    else LastSeparatorRun(s, i + 1, last)
  }

  /** `File.dirname`: everything before the last separator run that is not
      trailing; "/" for a path directly under the root; "." for a bare name. A
      path starting with several separators keeps only one of them. */
  function DirName(path: string): string {
    var root := LeadingSlashes(path);
    var name := if root > 1 then root - 1 else 0;
    var p := match LastSeparatorRun(path, root, None)
             case Some(k) => k
             case None => root;
    if p == name then "." else path[name..p]
  }

  /** `File.join(dir, name)` for a relative `name`: one separator between the
      parts, none added when `dir` already ends with one. */
  function Join(dir: string, name: string): string
    requires name != [] && name[0] != '/'
  {
    if dir != [] && dir[|dir| - 1] == '/' then dir + name else dir + "/" + name
  }

  /** The iOS directory: the argument, or the parent of the script's directory. */
  function IosDir(iosDirArg: Option<string>, scriptPath: string): string {
    if iosDirArg.None? then DirName(DirName(scriptPath)) else iosDirArg.value
  }

  /** `.env` in the project root, the parent of the iOS directory. */
  function EnvFilePath(iosDir: string): string {
    Join(DirName(iosDir), EnvFileName)
  }

  function AppDelegatePath(iosDir: string): string {
    Join(iosDir, AppDelegateRelPath)
  }

  /** A directory path without a trailing separator and without a doubled
      leading one, such as "/Users/dev/app" or "app". */
  predicate PlainDir(d: string) {
    d != [] && d[|d| - 1] != '/' && !(|d| >= 2 && d[0] == '/' && d[1] == '/')
  }

  predicate PlainName(n: string) {
    n != [] && forall k :: 0 <= k < |n| ==> n[k] != '/'
  }

  lemma {:induction false} LastSeparatorRunNoSlash(s: string, i: nat, last: Option<nat>)
    requires i <= |s|
    requires last.Some? ==> last.value < i
    requires forall k :: i <= k < |s| ==> s[k] != '/'
    ensures LastSeparatorRun(s, i, last) == last
    decreases |s| - i
  {
    if i < |s| { LastSeparatorRunNoSlash(s, i + 1, last); }
  }

  lemma {:induction false} LastSeparatorRunOfChild(d: string, leaf: string, i: nat, last: Option<nat>)
    requires PlainDir(d) && PlainName(leaf)
    requires i <= |d|
    requires var s := d + "/" + leaf; s[i] == '/' ==> 0 < i && s[i - 1] != '/'
    requires last.Some? ==> last.value < i
    ensures LastSeparatorRun(d + "/" + leaf, i, last) == Some(|d|)
    decreases |d| - i
  {
    var s := d + "/" + leaf;
    assert s[|d|] == '/' && forall k :: |d| < k < |s| ==> s[k] == leaf[k - |d| - 1];
    if s[i] == '/' {
      var j := SlashRunEnd(s, i);
      if i < |d| {
        assert s[|d| - 1] == d[|d| - 1];
        assert j < |d|;
        LastSeparatorRunOfChild(d, leaf, j, Some(i));
      } else {
        assert s[|d| + 1] == leaf[0];
        assert j == |d| + 1;
        LastSeparatorRunNoSlash(s, j, Some(i));
      }
    } else {
      LastSeparatorRunOfChild(d, leaf, i + 1, last);
    }
  }

  /** The parent of `d/leaf` is `d`. */
  lemma DirNameOfChild(d: string, leaf: string)
    requires PlainDir(d) && PlainName(leaf)
    ensures DirName(d + "/" + leaf) == d
  {
    var s := d + "/" + leaf;
    var root := LeadingSlashes(s);
    assert s[..|d|] == d;
    assert s[0] == d[0] && s[|d| - 1] == d[|d| - 1];
    assert |d| >= 2 ==> s[1] == d[1];
    LastSeparatorRunOfChild(d, leaf, root, None);
  }

  /** A bare name lies in the current directory. */
  lemma DirNameOfPlainName(leaf: string)
    requires PlainName(leaf)
    ensures DirName(leaf) == "."
  {
    LastSeparatorRunNoSlash(leaf, 0, None);
  }

  /** For an iOS directory `parent/leaf`, the environment file is
      `parent/.env` and the target is `parent/leaf/Runner/AppDelegate.swift`. */
  lemma ScriptPaths(parent: string, leaf: string)
    requires PlainDir(parent) && PlainName(leaf)
    ensures EnvFilePath(parent + "/" + leaf) == parent + "/.env"
    ensures AppDelegatePath(parent + "/" + leaf) == parent + "/" + leaf + "/Runner/AppDelegate.swift"
  {
    DirNameOfChild(parent, leaf);
    var iosDir := parent + "/" + leaf;
    assert iosDir[|iosDir| - 1] == leaf[|leaf| - 1];
    assert Join(parent, EnvFileName) == parent + "/" + EnvFileName;
    assert Join(iosDir, AppDelegateRelPath) == iosDir + "/" + AppDelegateRelPath;
  }

  /** Without an argument, a script at `iosDir/scripts/inject_env.rb` works on `iosDir`. */
  lemma DefaultIosDir(iosDir: string)
    requires PlainDir(iosDir)
    ensures IosDir(None, iosDir + "/scripts/inject_env.rb") == iosDir
  {
    var scripts := iosDir + "/" + "scripts";
    assert iosDir + "/scripts/inject_env.rb" == scripts + "/" + "inject_env.rb";
    ChildIsPlainDir(iosDir, "scripts");
    DirNameOfChild(scripts, "inject_env.rb");
    DirNameOfChild(iosDir, "scripts");
  }

  lemma ChildIsPlainDir(d: string, leaf: string)
    requires PlainDir(d) && PlainName(leaf)
    ensures PlainDir(d + "/" + leaf)
  {
    var s := d + "/" + leaf;
    assert s[0] == d[0] && s[|s| - 1] == leaf[|leaf| - 1];
    assert |d| >= 2 ==> s[1] == d[1];
  }

  /** The two files the script touches are distinct: one ends in ".env", the other in ".swift". */
  lemma EnvFileIsNotTarget(iosDir: string)
    ensures EnvFilePath(iosDir) != AppDelegatePath(iosDir)
  {
    var e := EnvFilePath(iosDir);
    var t := AppDelegatePath(iosDir);
    assert e[|e| - 1] == 'v';
    assert t[|t| - 1] == 't';
  }
}
