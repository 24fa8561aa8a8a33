/** `inject_api_key` (ios/scripts/inject_env.rb): read the key from the
    project's `.env` and write it over the fallback key literals of
    `AppDelegate.swift`. The file system is a map from path to content;
    `File.exist?` is membership, `File.read` lookup and `File.write` update.
    The console messages are not modelled. */
module InjectEnv {
  import opened Wrappers
  import opened EnvPaths
  import opened EnvKey
  import opened FallbackKey

  /** Where the script stops. */
  datatype Outcome =
    | EnvFileMissing(envFile: string)
    | KeyMissing
    | AppDelegateMissing(appDelegate: string)
    | Injected(appDelegate: string, key: string)

  datatype Run = Run(outcome: Outcome, files: map<string, string>)

  /** The key the script reads from a `.env` content. */
  function KeyOf(envContent: string): Option<string> {
    FirstKey(Lines(envContent))
  }

  /** What the script does once it has its two paths: stop when `.env` is
      missing, when its key is missing or empty, or when the target is
      missing; otherwise write the substituted target. */
  function InjectAt(envFile: string, target: string, files: map<string, string>): Run {
    if envFile !in files then Run(EnvFileMissing(envFile), files)
    else
      var key := KeyOf(files[envFile]);
      if key.None? || key.value == [] then Run(KeyMissing, files)
      else if target !in files then Run(AppDelegateMissing(target), files)
      else Run(Injected(target, key.value), files[target := Substituted(files[target], key.value)])
  }

  /** What one run of the script does to the file system. */
  function Injection(iosDirArg: Option<string>, scriptPath: string, files: map<string, string>): Run {
    var iosDir := IosDir(iosDirArg, scriptPath);
    InjectAt(EnvFilePath(iosDir), AppDelegatePath(iosDir), files)
  }

  /** Only the target may change, and only when the run got as far as
      injecting; a missing `.env`, a missing or empty key or a missing target
      leave every file as it was. */
  lemma InjectAtWritesOnlyTarget(envFile: string, target: string, files: map<string, string>)
    ensures var run := InjectAt(envFile, target, files);
            && run.files.Keys == files.Keys
            && (!run.outcome.Injected? ==> run.files == files)
            && (run.outcome.Injected? ==>
                  run.outcome.appDelegate == target && target in files &&
                  run.outcome.key != [] && run.outcome.key == KeyOf(files[envFile]).value &&
                  run.files[target] == Substituted(files[target], run.outcome.key) &&
                  forall p :: p in files && p != target ==> run.files[p] == files[p])
  {
  }

  lemma InjectionWritesOnlyTarget(iosDirArg: Option<string>, scriptPath: string, files: map<string, string>)
    ensures var run := Injection(iosDirArg, scriptPath, files);
            var target := AppDelegatePath(IosDir(iosDirArg, scriptPath));
            && run.files.Keys == files.Keys
            && (!run.outcome.Injected? ==> run.files == files)
            && (run.outcome.Injected? ==>
                  run.outcome.appDelegate == target && run.outcome.key != [] &&
                  forall p :: p in files && p != target ==> run.files[p] == files[p])
  {
    var iosDir := IosDir(iosDirArg, scriptPath);
    InjectAtWritesOnlyTarget(EnvFilePath(iosDir), AppDelegatePath(iosDir), files);
  }

  /** A second run with the same two paths, when they differ, finds the same
      key and, for a key of Google Maps shape, leaves the files as they are. */
  lemma InjectAtRerunIsStable(envFile: string, target: string, files: map<string, string>)
    requires envFile != target
    requires var run := InjectAt(envFile, target, files);
             run.outcome.Injected? ==> IsFallbackKey(run.outcome.key)
    ensures var run := InjectAt(envFile, target, files);
            InjectAt(envFile, target, run.files) == run
  {
    var run := InjectAt(envFile, target, files);
    if run.outcome.Injected? {
      var key := run.outcome.key;
      SubstitutedIdempotent(files[target], key);
      assert run.files[target := Substituted(run.files[target], key)] == run.files;
    }
  }

  /** With a key of the Google Maps shape, running the script a second time
      changes nothing and ends the same way. */
  lemma InjectionRerunIsStable(iosDirArg: Option<string>, scriptPath: string, files: map<string, string>)
    requires var run := Injection(iosDirArg, scriptPath, files);
             run.outcome.Injected? ==> IsFallbackKey(run.outcome.key)
    ensures var run := Injection(iosDirArg, scriptPath, files);
            Injection(iosDirArg, scriptPath, run.files) == run
  {
    var iosDir := IosDir(iosDirArg, scriptPath);
    EnvFileIsNotTarget(iosDir);
    InjectAtRerunIsStable(EnvFilePath(iosDir), AppDelegatePath(iosDir), files);
  }

  /** The script: derive the paths, stop when `.env` is missing, take the key
      from the first `GOOGLE_MAPS_API_KEY=` line, stop when it is missing or
      empty or when `AppDelegate.swift` is missing, else substitute and write. */
  method InjectApiKey(iosDirArg: Option<string>, scriptPath: string, files: map<string, string>)
    returns (outcome: Outcome, written: map<string, string>)
    ensures Run(outcome, written) == Injection(iosDirArg, scriptPath, files)
  {
    var iosDir := if iosDirArg.None? then DirName(DirName(scriptPath)) else iosDirArg.value;
    var projectRoot := DirName(iosDir);
    var envFile := Join(projectRoot, EnvFileName);
    var appDelegateFile := Join(iosDir, AppDelegateRelPath);
    written := files;

    if envFile !in files {
      outcome := EnvFileMissing(envFile);
      return;
    }

    var apiKey := ExtractApiKey(Lines(files[envFile]));
    if apiKey.None? || apiKey.value == [] {
      outcome := KeyMissing;
      return;
    }

    if appDelegateFile !in files {
      outcome := AppDelegateMissing(appDelegateFile);
      return;
    }

    var content := files[appDelegateFile];
    content := ReplaceFallbackKeys(content, apiKey.value);
    written := files[appDelegateFile := content];
    outcome := Injected(appDelegateFile, apiKey.value);
  }
}
