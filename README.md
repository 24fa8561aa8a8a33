# child_track device channel and API-key injection, in Dafny

This project models two pieces of the child_track app.

**The Android side of the `device_info` method channel.**
- `HandleMethodCall` is the dispatcher. It answers `getSoundProfile` with the ringer mode mapped to "sound", "vibrate", "silent" or "unknown". It answers `getInstalledApps` with the installed-app inventory, or with an `ERROR` reply whose message starts "Failed to get installed apps: ". Any other method name gets "not implemented".
- `GetInstalledApps` walks the package list and skips a package when its application info or package name is missing or when processing it throws.
- For each kept package, the app name falls back to the package name. `isSystemApp` comes from the `FLAG_SYSTEM` bit. The version fields are taken as reported. The icon is saved as `<cacheDir>/app_icons/<package name with '.' replaced by '_'>.png`, or left null when that fails.
- The result is sorted stably by app name. The unsorted list is returned if the sort fails.
- `drawableToBitmap` returns a drawable's own bitmap when it has one. Otherwise it renders at the intrinsic size, or at 48×48 when either dimension is not positive.

**The iOS build script `inject_env.rb`.**
- It derives the iOS directory, the project root, `.env` and `Runner/AppDelegate.swift` with `File.dirname` and `File.join`.
- It takes the key from the first `.env` line that starts with `GOOGLE_MAPS_API_KEY=`: everything after the first `=`, with whitespace stripped.
- It stops without writing when `.env` is missing, when the key is missing or empty, or when `AppDelegate.swift` is missing.
- Otherwise it replaces every `"AIzaSy…"` literal with the quoted key, as Ruby's `gsub!` scans, and writes the file back.

**How the model is built.**
- Framework answers (the package manager, the audio manager, icon rendering, the file system) are inputs.
- A lookup that may throw is an `Option`, with `None` meaning it threw.
- The Ruby script's file system is a map from path to content.
- The central specification functions are `AppInventory.InstalledApps` (with `AppInventory.SortByName`), `EnvPaths.DirName`, `EnvKey.FirstKey`, `FallbackKey.Substituted` and `InjectEnv.InjectAt` with `InjectEnv.Injection`. The rows below state their properties through the lemmas about them.
- The methods (`GetInstalledApps`, `ExtractApiKey`, `ReplaceFallbackKeys`, `InjectApiKey`, `HandleMethodCall`) keep the source's loops, `continue`s and `break`s. Each is proved equal to a specification function, and the lemmas state what the source promises about that function.

**What the code does not check.**
- `getInstalledApps` takes no argument and has no system-app filter: system apps are always returned, marked by `isSystemApp`.
- Nothing checks that package names are non-empty or unique. An empty package name is passed through. Names in the inventory are distinct only when the package manager reports distinct names (`AppInventory.CollectDistinctNames`).

## Model

| member | source | states |
|---|---|---|
| AppIcons.DrawableToBitmap | android/app/src/main/kotlin/com/example/child_track/MainActivity.kt:135-163 | a drawable's own bitmap is returned unchanged; otherwise the render fails only when drawing throws, and the bitmap has the intrinsic size when both dimensions are positive, else 48×48, so it is never empty |
| AppIcons.ReplaceDots | android/app/src/main/kotlin/com/example/child_track/MainActivity.kt:125 | the same length as the package name, every '.' becomes '_', and every other character is kept |
| AppIcons.IconFileName | android/app/src/main/kotlin/com/example/child_track/MainActivity.kt:125 | the name is the package name with every '.' replaced by '_' and every other character kept, followed by ".png"; so no '.' comes before the extension |
| AppIcons.IconFilePath | android/app/src/main/kotlin/com/example/child_track/MainActivity.kt:119-125 | the path is the cache directory, then "/app_icons/", then the icon file name |
| AppIcons.IconFileNameCollision | android/app/src/main/kotlin/com/example/child_track/MainActivity.kt:125 | two packages share an icon file exactly when their names have equal length and differ only by '.' against '_' |
| AppIcons.SaveAppIcon | android/app/src/main/kotlin/com/example/child_track/MainActivity.kt:116-133 | a path is returned exactly when the bitmap renders and the file can be written, and it is the icon path of that package; otherwise null |
| AppInventory.SystemFlagIsLowBit | android/app/src/main/kotlin/com/example/child_track/MainActivity.kt:70 | an app is a system app exactly when the low bit (`FLAG_SYSTEM`) of its flags is set |
| AppInventory.IconPathOf | android/app/src/main/kotlin/com/example/child_track/MainActivity.kt:84-89 | a record gets an icon path exactly when the icon loads and saves; the path is the package's icon file |
| AppInventory.ProcessPackage | android/app/src/main/kotlin/com/example/child_track/MainActivity.kt:59-102 | a package is dropped exactly when its application info or name is missing or its processing throws; a kept record carries the package name, the label or else the package name, the system bit, the version fields, and the icon path of `IconPathOf`, which is present exactly when the icon loads and saves |
| AppInventory.Collect | android/app/src/main/kotlin/com/example/child_track/MainActivity.kt:58-103 | the collected list is never longer than the package list |
| AppInventory.CollectAppend | android/app/src/main/kotlin/com/example/child_track/MainActivity.kt:58-103 | packages are processed independently: collecting a concatenation concatenates the collections |
| AppInventory.SkippedPackageLeavesOthers | android/app/src/main/kotlin/com/example/child_track/MainActivity.kt:99-102 | a package that fails contributes nothing and every other package's record is still collected in order; a package that succeeds contributes exactly its record |
| AppInventory.CollectMembership | android/app/src/main/kotlin/com/example/child_track/MainActivity.kt:58-103 | a record is collected exactly when some package processes to it |
| AppInventory.CollectDistinctNames | android/app/src/main/kotlin/com/example/child_track/MainActivity.kt:58-103 | when the reported package names are distinct, so are the names in the inventory |
| AppInventory.NameLeReflexive | android/app/src/main/kotlin/com/example/child_track/MainActivity.kt:110 | the name order is reflexive |
| AppInventory.NameLeTotal | android/app/src/main/kotlin/com/example/child_track/MainActivity.kt:110 | any two names are comparable |
| AppInventory.NameLeTransitive | android/app/src/main/kotlin/com/example/child_track/MainActivity.kt:110 | the name order is transitive |
| AppInventory.NameLeAntisymmetric | android/app/src/main/kotlin/com/example/child_track/MainActivity.kt:110 | names that are each at most the other are equal, so the order is a total order |
| AppInventory.InsertByNameMultiset | android/app/src/main/kotlin/com/example/child_track/MainActivity.kt:110 | inserting a record adds exactly that record |
| AppInventory.InsertByNameSorted | android/app/src/main/kotlin/com/example/child_track/MainActivity.kt:110 | inserting into a name-sorted list keeps it sorted |
| AppInventory.InsertByNameStable | android/app/src/main/kotlin/com/example/child_track/MainActivity.kt:110 | an inserted record goes before every existing record with the same name |
| AppInventory.SortByNameCorrect | android/app/src/main/kotlin/com/example/child_track/MainActivity.kt:110 | `sortedBy` on the name returns a permutation of the list, sorted by name |
| AppInventory.SortByNameStable | android/app/src/main/kotlin/com/example/child_track/MainActivity.kt:110 | records with equal names keep their enumeration order |
| AppInventory.InstalledAppsCorrect | android/app/src/main/kotlin/com/example/child_track/MainActivity.kt:51-114 | the inventory is a permutation of the collected records; it is sorted by name and stable unless the sort fails, in which case it is the collected list unchanged |
| AppInventory.GetInstalledApps | android/app/src/main/kotlin/com/example/child_track/MainActivity.kt:51-114 | the loop with its `continue`s, and the sort with its fallback, compute the inventory specified by `InstalledApps`; a missing package manager or package list gives the empty list |
| DeviceChannel.SoundProfile | android/app/src/main/kotlin/com/example/child_track/MainActivity.kt:41-49 | "sound", "vibrate" and "silent" come exactly from ringer modes NORMAL, VIBRATE and SILENT; every other mode gives "unknown" |
| DeviceChannel.HandleMethodCall | android/app/src/main/kotlin/com/example/child_track/MainActivity.kt:22-37 | `getSoundProfile` succeeds with the profile; `getInstalledApps` succeeds with the inventory, or returns `ERROR` with the prefixed fault message ("null" when absent); any other name, and only those, is not implemented |
| EnvPaths.LeadingSlashes | ios/scripts/inject_env.rb:10-14 | counts the run of separators that starts a path (the root of `File.dirname`) |
| EnvPaths.SlashRunEnd | ios/scripts/inject_env.rb:10-14 | finds the end of a run of separators |
| EnvPaths.LastSeparatorRun | ios/scripts/inject_env.rb:10-14 | scanning from a position outside a separator run, the result is the start of the last separator run that is not the leading one and is followed by something other than a separator; when there is none from that position on, the run found before it is kept |
| EnvPaths.LastSeparatorRunNoSlash | ios/scripts/inject_env.rb:10-14 | a path tail without separators adds no separator run |
| EnvPaths.LastSeparatorRunOfChild | ios/scripts/inject_env.rb:10-14 | in "dir/leaf" the last separator run starts at the separator before the leaf |
| EnvPaths.DirNameOfChild | ios/scripts/inject_env.rb:10-14 | `File.dirname` of "dir/leaf" is "dir" |
| EnvPaths.DirNameOfPlainName | ios/scripts/inject_env.rb:10-14 | `File.dirname` of a bare name is "." |
| EnvPaths.ScriptPaths | ios/scripts/inject_env.rb:14-16 | for an iOS directory "parent/leaf", `.env` is "parent/.env" and the target is "parent/leaf/Runner/AppDelegate.swift" |
| EnvPaths.DefaultIosDir | ios/scripts/inject_env.rb:8-12 | without an argument, the iOS directory is the parent of the script's own directory |
| EnvPaths.EnvFileIsNotTarget | ios/scripts/inject_env.rb:14-16 | `.env` and `AppDelegate.swift` are never the same path |
| EnvKey.LineLength | ios/scripts/inject_env.rb:26 | a line runs up to and including the first '\n', or to the end |
| EnvKey.Lines | ios/scripts/inject_env.rb:26 | `readlines` cuts the content into non-empty lines that concatenate back to it; each line but the last ends in '\n' and none has an inner '\n' |
| EnvKey.LeadingSpaceEnd | ios/scripts/inject_env.rb:28 | finds the first character that is not whitespace: only whitespace comes before it |
| EnvKey.TrailingSpaceStart | ios/scripts/inject_env.rb:28 | finds where the trailing whitespace starts: only whitespace comes after it, and the character before it is not whitespace |
| EnvKey.Strip | ios/scripts/inject_env.rb:28 | the result is the infix of the value that starts after its leading whitespace, with only whitespace outside it and none at either of its ends; it is empty exactly when the value is all whitespace; a value already stripped is unchanged |
| EnvKey.AfterFirst | ios/scripts/inject_env.rb:28 | `split('=', 2)[1]` is the text after the first '=', and absent when there is no '=' |
| EnvKey.KeyValue | ios/scripts/inject_env.rb:28 | the key is the stripped text after the prefix `GOOGLE_MAPS_API_KEY=` |
| EnvKey.FirstKeyIsFirstMatch | ios/scripts/inject_env.rb:25-31 | the first line with the prefix decides the key, whatever later lines hold, even if its value is empty |
| EnvKey.FirstKeyAbsent | ios/scripts/inject_env.rb:25-31 | no key is found exactly when no line has the prefix |
| EnvKey.ExtractApiKey | ios/scripts/inject_env.rb:25-31 | the loop with `break` returns the first match's key |
| FallbackKey.QuoteFreeRun | ios/scripts/inject_env.rb:48 | measures the quote-free prefix that `[^"]+` can consume |
| FallbackKey.OpensLiteralIsPrefix | ios/scripts/inject_env.rb:48 | the character-by-character test of the opening agrees with "starts with `\"AIzaSy`" |
| FallbackKey.ClosingAfter | ios/scripts/inject_env.rb:48 | the position found is 0 or lies after the start of the search |
| FallbackKey.ClosingAfterSpec | ios/scripts/inject_env.rb:48 | a non-zero result is just after the first quote at or after the start; 0 means no quote follows |
| FallbackKey.LiteralLen | ios/scripts/inject_env.rb:48 | a non-zero match length covers at least the opening, one character and the closing quote, within the text |
| FallbackKey.LiteralLenExact | ios/scripts/inject_env.rb:48 | a prefix is a match exactly when its length is the one found, so the pattern has one match per position |
| FallbackKey.Scan | ios/scripts/inject_env.rb:48 | the `gsub` scan splits the text into kept characters and matches that concatenate back to it; a piece is a match exactly when the text from its position on starts with one, and it then takes the whole match |
| FallbackKey.SubstitutedRendersScan | ios/scripts/inject_env.rb:48 | the substitution replaces each scanned match by the quoted key and keeps everything else |
| FallbackKey.SubstitutedWithoutMatch | ios/scripts/inject_env.rb:48 | text with no fallback literal is left unchanged |
| FallbackKey.SubstitutedKeepsQuoteFreePrefix | ios/scripts/inject_env.rb:48 | text before the first quote is kept, and the result continues with a quote |
| FallbackKey.SubstitutedAtOther | ios/scripts/inject_env.rb:48 | a character other than a quote is always kept |
| FallbackKey.SubstitutedAtQuote | ios/scripts/inject_env.rb:48 | at a quote the output starts with a quote |
| FallbackKey.SubstitutedQuoteFreeAppend | ios/scripts/inject_env.rb:48 | quote-free text in front of any text passes through unchanged |
| FallbackKey.SubstitutedQuoteFree | ios/scripts/inject_env.rb:48 | quote-free text is unchanged |
| FallbackKey.SubstitutedAfterReplacement | ios/scripts/inject_env.rb:48 | a quoted Google-shaped key is itself matched and replaced by the same text |
| FallbackKey.KeptCharOutput | ios/scripts/inject_env.rb:48 | after a kept character the output repeats the input up to its next quote and has a quote exactly where the input has one |
| FallbackKey.SameLiteral | ios/scripts/inject_env.rb:48 | two texts that agree up to that quote start with the same fallback literal |
| FallbackKey.MatchAfterKeptChar | ios/scripts/inject_env.rb:48 | a match at a kept character after substitution was already a match before |
| FallbackKey.NoNewMatchAtKeptChar | ios/scripts/inject_env.rb:48 | substitution creates no new match at a position the scan kept |
| FallbackKey.SubstitutedIdempotent | ios/scripts/inject_env.rb:48 | for a Google-shaped key, substituting twice equals substituting once |
| FallbackKey.CounterTailUnchanged | ios/scripts/inject_env.rb:48 | a tail with no opening quote before "AIzaSy" is kept as it is |
| FallbackKey.CounterLeadingMatch | ios/scripts/inject_env.rb:48 | the leftmost match in the example stops at the first closing quote, after the leading literal |
| FallbackKey.CounterFirstPass | ios/scripts/inject_env.rb:48 | the first pass replaces the leading literal and keeps the tail, giving `"k"AIzaSyB"` |
| FallbackKey.CounterSecondPass | ios/scripts/inject_env.rb:48 | the second pass finds the new literal formed by the key's closing quote and the tail, leaving 5 characters |
| FallbackKey.SubstitutedNotIdempotentForOtherKeys | ios/scripts/inject_env.rb:48 | for a key not of Google shape a second pass can change the file again |
| FallbackKey.ReplaceFallbackKeys | ios/scripts/inject_env.rb:48 | the scanning loop computes the substitution specified by `Substituted` |
| InjectEnv.InjectAtWritesOnlyTarget | ios/scripts/inject_env.rb:19-52 | for given paths: no file changes unless the script injects; when it does, the target gets the substitution with the first key of `.env`, which is non-empty, every other file is kept, and no file appears or disappears |
| InjectEnv.InjectionWritesOnlyTarget | ios/scripts/inject_env.rb:19-52 | no file changes unless the script injects; when it does, only `AppDelegate.swift` changes, with a non-empty key, and no file appears or disappears |
| InjectEnv.InjectAtRerunIsStable | ios/scripts/inject_env.rb:19-52 | for distinct `.env` and target paths and a Google-shaped key, a second run finds the same key and leaves the files unchanged |
| InjectEnv.InjectionRerunIsStable | ios/scripts/inject_env.rb:19-52 | with a Google-shaped key, a second run ends the same way and leaves the files as the first run left them |
| InjectEnv.InjectApiKey | ios/scripts/inject_env.rb:6-55 | the script's early returns and final write produce exactly the outcome and files of `Injection` |

## Left out

- Calls into the Android framework are inputs. This covers the package manager, the application label, the icon loader, the audio manager, bitmap creation, drawing on a canvas, PNG compression and the file output stream. A rendering or writing failure is an input flag.
- The `MethodChannel` plumbing is left out: the channel name, `setMethodCallHandler`, and the `result` callbacks, which become a returned `Reply`.
- The SDK-version branch for `versionCode` and the narrowing `toInt()` of `longVersionCode` are left out. The version code is whatever the package reports, or absent when reading it throws.
- The `iconDir.mkdirs()` call is left out: a directory that cannot be created shows up as an unwritable icon path. The model assumes `cacheDir` has no trailing separator, as Android's cache directory has none.
- The outer `catch` around the loop and `printStackTrace` are left out. A throwing package enumeration is modelled as an absent package list, which gives an empty inventory.
- The `(it["appName"] as? String) ?: ""` fallback is not reachable because every record's `appName` is a string. The model sorts on `appName` directly.
- AppInventory.NameLe: compares Unicode characters, whereas Kotlin's `String.compareTo` compares UTF-16 code units. The two orders differ only for characters outside the Basic Multilingual Plane.
- DeviceChannel.HandleMethodCall: the fault that escapes `getInstalledApps` and the failing sort are inputs (`escapedFault`, `sortFails`). The modelled code catches everything itself, so neither can arise from the model.
- `File.expand_path(__FILE__)` is an input: the script path is taken as already expanded.
- The `puts` messages and the `if __FILE__ == $0` entry point are left out.
- FallbackKey.ReplaceFallbackKeys: inserts the key literally. Ruby would interpret backslash sequences in the replacement string, such as `\1` or `\\`, which a Google Maps key never contains.
- FallbackKey.SubstitutedIdempotent: stated only for keys of Google Maps shape ("AIzaSy" and at least one more character, no quote). `FallbackKey.SubstitutedNotIdempotentForOtherKeys` shows it fails for other keys.
- `ios/Runner/AppDelegate.swift` only holds the key literal that the script rewrites. It has no logic to model.
- The rest of the app is not part of this model: usage-time aggregation, the usage-access permission, the settings navigation, an `includeSystemApps` filter and the restricted-platform probe. None of them has code in `MainActivity.kt` or `inject_env.rb`.
