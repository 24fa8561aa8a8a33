/** The installed-app inventory of the Android device-info channel
    (`getInstalledApps` in MainActivity.kt). The package manager is an input:
    a sequence of package entries whose nullable fields are Options and whose
    throwing lookups are Options that are None. */
module AppInventory {
  import opened Wrappers
  import opened AppIcons

  /** `ApplicationInfo.FLAG_SYSTEM`, bit 0 of the 32-bit flags word. */
  const FLAG_SYSTEM: bv32 := 1

  /** An application's info. `applicationLabel` is None when `getApplicationLabel`
      throws; `icon` is None when `loadIcon` throws. */
  datatype ApplicationInfo = ApplicationInfo(
    flags: bv32,
    applicationLabel: Option<string>,
    icon: Option<Drawable>)

  /** One entry of `getInstalledPackages`. `applicationInfo`, `packageName` and
      `versionName` are the nullable fields; `versionCode` is None when reading
      it throws; `faults` says that an exception escapes the entry's processing
      outside the guarded lookups. */
  datatype PackageInfo = PackageInfo(
    applicationInfo: Option<ApplicationInfo>,
    packageName: Option<string>,
    versionName: Option<string>,
    versionCode: Option<int>,
    faults: bool)

  /** The map the channel returns for one application. */
  datatype AppRecord = AppRecord(
    packageName: string,
    appName: string,
    iconPath: Option<string>,
    isSystemApp: bool,
    versionName: Option<string>,
    versionCode: Option<int>)

  predicate IsSystemFlagSet(flags: bv32) {
    flags & FLAG_SYSTEM != 0
  }

  /** The system test looks at the low bit only: it holds exactly for odd flag words. */
  lemma SystemFlagIsLowBit(flags: bv32)
    ensures IsSystemFlagSet(flags) <==> flags % 2 == 1
  {
  }

  /** `iconPath`: loading the icon may throw and saving may fail; both give None. */
  function IconPathOf(info: ApplicationInfo, packageName: string, cache: IconCache): (path: Option<string>)
    ensures path.Some? <==> info.icon.Some? && SaveAppIcon(info.icon.value, packageName, cache).Some?
    ensures path.Some? ==> path.value == IconFilePath(cache.cacheDir, packageName)
  {
    if info.icon.None? then None else SaveAppIcon(info.icon.value, packageName, cache)
  }

  /** What the loop body makes of one package: None when it is skipped. */
  function ProcessPackage(p: PackageInfo, cache: IconCache): (r: Option<AppRecord>)
    // only a missing field or an escaping fault drops a package; failed
    // label, version-code or icon lookups never do
    ensures r.None? <==> p.applicationInfo.None? || p.packageName.None? || p.faults
    ensures r.Some? ==> r.value.packageName == p.packageName.value
    ensures r.Some? && p.applicationInfo.value.applicationLabel.None? ==> r.value.appName == r.value.packageName
    ensures r.Some? && p.applicationInfo.value.applicationLabel.Some? ==> r.value.appName == p.applicationInfo.value.applicationLabel.value
    ensures r.Some? ==> (r.value.isSystemApp <==> IsSystemFlagSet(p.applicationInfo.value.flags))
    ensures r.Some? ==> r.value.versionName == p.versionName && r.value.versionCode == p.versionCode
    ensures r.Some? ==> r.value.iconPath == IconPathOf(p.applicationInfo.value, p.packageName.value, cache)
    ensures r.Some? && p.applicationInfo.value.icon.None? ==> r.value.iconPath.None?
    ensures r.Some? && r.value.iconPath.Some? ==>
              r.value.iconPath.value == IconFilePath(cache.cacheDir, r.value.packageName)
  {
    if p.applicationInfo.None? || p.packageName.None? || p.faults then None
    else
      var info := p.applicationInfo.value;
      var name := p.packageName.value;
      var appName := if info.applicationLabel.Some? then info.applicationLabel.value else name;
      Some(AppRecord(name, appName, IconPathOf(info, name, cache), IsSystemFlagSet(info.flags),
                     p.versionName, p.versionCode))
  }

  function Emitted(p: PackageInfo, cache: IconCache): seq<AppRecord> {
    match ProcessPackage(p, cache)
    case None => []
    case Some(r) => [r]
  }

  /** The list `apps` after the loop has processed `ps`, in enumeration order. */
  function Collect(ps: seq<PackageInfo>, cache: IconCache): (apps: seq<AppRecord>)
    ensures |apps| <= |ps|
  {
    if ps == [] then [] else Collect(ps[..|ps| - 1], cache) + Emitted(ps[|ps| - 1], cache)
  }

  lemma {:induction false} CollectAppend(a: seq<PackageInfo>, b: seq<PackageInfo>, cache: IconCache)
    ensures Collect(a + b, cache) == Collect(a, cache) + Collect(b, cache)
    decreases |b|
  {
    if b == [] {
      assert a + b == a;
    } else {
      var b' := b[..|b| - 1];
      assert (a + b)[..|a + b| - 1] == a + b';
      CollectAppend(a, b', cache);
    }
  }

  /** Fault isolation: a package that cannot be processed removes nothing but
      itself, and every other package keeps its record in place. */
  lemma SkippedPackageLeavesOthers(a: seq<PackageInfo>, p: PackageInfo, b: seq<PackageInfo>, cache: IconCache)
    ensures ProcessPackage(p, cache).None? ==>
              Collect(a + [p] + b, cache) == Collect(a, cache) + Collect(b, cache)
    ensures ProcessPackage(p, cache).Some? ==>
              Collect(a + [p] + b, cache) == Collect(a, cache) + [ProcessPackage(p, cache).value] + Collect(b, cache)
  {
    CollectAppend(a + [p], b, cache);
    assert (a + [p])[..|a + [p]| - 1] == a;
    assert Collect(a + [p], cache) == Collect(a, cache) + Emitted(p, cache);
  }

  /** A record is collected exactly when some package produced it. */
  lemma {:induction false} CollectMembership(ps: seq<PackageInfo>, cache: IconCache, rec: AppRecord)
    ensures rec in Collect(ps, cache) <==>
              exists i :: 0 <= i < |ps| && ProcessPackage(ps[i], cache) == Some(rec)
    decreases |ps|
  {
    if ps != [] {
      var init := ps[..|ps| - 1];
      CollectMembership(init, cache, rec);
      if exists i :: 0 <= i < |ps| && ProcessPackage(ps[i], cache) == Some(rec) {
        var i :| 0 <= i < |ps| && ProcessPackage(ps[i], cache) == Some(rec);
        if i < |ps| - 1 {
          assert init[i] == ps[i];
        }
      }
      if rec in Collect(init, cache) {
        var i :| 0 <= i < |init| && ProcessPackage(init[i], cache) == Some(rec);
        assert ps[i] == init[i];
      }
    }
  }

  /** Distinct package names in the enumeration give distinct names in the inventory. */
  lemma {:induction false} CollectDistinctNames(ps: seq<PackageInfo>, cache: IconCache)
    requires forall i, j :: 0 <= i < j < |ps| && ps[i].packageName.Some? ==> ps[i].packageName != ps[j].packageName
    ensures var apps := Collect(ps, cache);
            forall i, j :: 0 <= i < j < |apps| ==> apps[i].packageName != apps[j].packageName
    decreases |ps|
  {
    if ps != [] {
      var init := ps[..|ps| - 1];
      var last := ps[|ps| - 1];
      CollectDistinctNames(init, cache);
      var apps := Collect(ps, cache);
      var before := Collect(init, cache);
      if ProcessPackage(last, cache).Some? {
        forall i | 0 <= i < |before|
          ensures before[i].packageName != last.packageName.value
        {
          CollectMembership(init, cache, before[i]);
          var k :| 0 <= k < |init| && ProcessPackage(init[k], cache) == Some(before[i]);
          assert init[k] == ps[k];
        }
      }
    }
  }

  /// Ordering: Kotlin's String.compareTo and the stable `sortedBy`

  /** Lexicographic order on names, a proper prefix first. */
  predicate NameLe(a: string, b: string)
    decreases |a|
  {
    if a == [] then true
    else if b == [] then false
    else if a[0] != b[0] then a[0] < b[0]
    else NameLe(a[1..], b[1..])
  }

  lemma {:induction false} NameLeReflexive(a: string)
    ensures NameLe(a, a)
    decreases |a|
  {
    if a != [] { NameLeReflexive(a[1..]); }
  }

  lemma {:induction false} NameLeTotal(a: string, b: string)
    ensures NameLe(a, b) || NameLe(b, a)
    decreases |a|
  {
    if a != [] && b != [] && a[0] == b[0] { NameLeTotal(a[1..], b[1..]); }
  }

  lemma {:induction false} NameLeTransitive(a: string, b: string, c: string)
    requires NameLe(a, b) && NameLe(b, c)
    ensures NameLe(a, c)
    decreases |a|
  {
    if a != [] && b != [] && c != [] && a[0] == b[0] && b[0] == c[0] {
      NameLeTransitive(a[1..], b[1..], c[1..]);
    }
  }

  lemma {:induction false} NameLeAntisymmetric(a: string, b: string)
    requires NameLe(a, b) && NameLe(b, a)
    ensures a == b
    decreases |a|
  {
    if a != [] && b != [] {
      NameLeAntisymmetric(a[1..], b[1..]);
      assert a == [a[0]] + a[1..] && b == [b[0]] + b[1..];
    }
  }

  predicate SortedByName(apps: seq<AppRecord>) {
    forall i, j :: 0 <= i < j < |apps| ==> NameLe(apps[i].appName, apps[j].appName)
  }

  /** The records that carry a given name, in order; stability of a sort by
      name means that it leaves each of these subsequences as it was. */
  function WithName(apps: seq<AppRecord>, name: string): seq<AppRecord> {
    if apps == [] then []
    else (if apps[0].appName == name then [apps[0]] else []) + WithName(apps[1..], name)
  }

  /** Places `x` before the first record whose name is not below its own. */
  function InsertByName(x: AppRecord, apps: seq<AppRecord>): seq<AppRecord> {
    if apps == [] then [x]
    else if NameLe(x.appName, apps[0].appName) then [x] + apps
    else [apps[0]] + InsertByName(x, apps[1..])
  }

  /** `apps.sortedBy { it["appName"] }`: a stable sort on the name. */
  function SortByName(apps: seq<AppRecord>): seq<AppRecord> {
    if apps == [] then [] else InsertByName(apps[0], SortByName(apps[1..]))
  }

  lemma {:induction false} InsertByNameMultiset(x: AppRecord, apps: seq<AppRecord>)
    ensures multiset(InsertByName(x, apps)) == multiset(apps) + multiset{x}
    decreases |apps|
  {
    if apps != [] && !NameLe(x.appName, apps[0].appName) {
      InsertByNameMultiset(x, apps[1..]);
      assert apps == [apps[0]] + apps[1..];
    }
  }

  lemma {:induction false} InsertByNameSorted(x: AppRecord, apps: seq<AppRecord>)
    requires SortedByName(apps)
    ensures SortedByName(InsertByName(x, apps))
    decreases |apps|
  {
    if apps == [] {
    } else if NameLe(x.appName, apps[0].appName) {
      var r := [x] + apps;
      forall i, j | 0 <= i < j < |r| ensures NameLe(r[i].appName, r[j].appName) {
        if i == 0 && j > 1 { NameLeTransitive(x.appName, apps[0].appName, apps[j - 1].appName); }
      }
    } else {
      var rest := InsertByName(x, apps[1..]);
      InsertByNameSorted(x, apps[1..]);
      InsertByNameMultiset(x, apps[1..]);
      NameLeTotal(x.appName, apps[0].appName);
      var r := [apps[0]] + rest;
      forall j | 0 < j < |r| ensures NameLe(r[0].appName, r[j].appName) {
        assert r[j] in multiset(rest);
        if r[j] != x {
          assert r[j] in multiset(apps[1..]);
          var k :| 0 <= k < |apps[1..]| && apps[1..][k] == r[j];
          assert apps[k + 1] == r[j];
        }
      }
    }
  }

  lemma {:induction false} InsertByNameStable(x: AppRecord, apps: seq<AppRecord>, name: string)
    ensures WithName(InsertByName(x, apps), name) ==
              (if x.appName == name then [x] else []) + WithName(apps, name)
    decreases |apps|
  {
    if apps == [] {
    } else if NameLe(x.appName, apps[0].appName) {
      assert ([x] + apps)[1..] == apps;
    } else {
      InsertByNameStable(x, apps[1..], name);
      if apps[0].appName == name && x.appName == name { NameLeReflexive(name); }
      assert ([apps[0]] + InsertByName(x, apps[1..]))[1..] == InsertByName(x, apps[1..]);
    }
  }

  /** The sort returns a permutation of its input, ordered by name. */
  lemma {:induction false} SortByNameCorrect(apps: seq<AppRecord>)
    ensures multiset(SortByName(apps)) == multiset(apps)
    ensures SortedByName(SortByName(apps))
    decreases |apps|
  {
    if apps != [] {
      var rest := SortByName(apps[1..]);
      SortByNameCorrect(apps[1..]);
      InsertByNameMultiset(apps[0], rest);
      InsertByNameSorted(apps[0], rest);
      assert apps == [apps[0]] + apps[1..];
    }
  }

  /** The sort is stable: records with equal names keep their original order. */
  lemma {:induction false} SortByNameStable(apps: seq<AppRecord>, name: string)
    ensures WithName(SortByName(apps), name) == WithName(apps, name)
    decreases |apps|
  {
    if apps != [] {
      SortByNameStable(apps[1..], name);
      InsertByNameStable(apps[0], SortByName(apps[1..]), name);
    }
  }

  /// The whole operation

  /** What `getInstalledApps` returns. `packages` is None when the package
      manager or its list is missing or the enumeration throws; `sortFails`
      says that the sort throws, in which case the list stays unsorted. */
  function InstalledApps(packages: Option<seq<PackageInfo>>, cache: IconCache, sortFails: bool): seq<AppRecord> {
    var collected := if packages.Some? then Collect(packages.value, cache) else [];
    if sortFails then collected else SortByName(collected)
  }

  /** The inventory holds exactly the records of the processable packages: a
      permutation of the collected list that, unless the sort failed, is
      sorted by name with equal names in enumeration order. */
  lemma InstalledAppsCorrect(packages: Option<seq<PackageInfo>>, cache: IconCache, sortFails: bool)
    ensures var apps := InstalledApps(packages, cache, sortFails);
            var collected := if packages.Some? then Collect(packages.value, cache) else [];
            && multiset(apps) == multiset(collected)
            && (!sortFails ==> SortedByName(apps))
            && (!sortFails ==> forall name :: WithName(apps, name) == WithName(collected, name))
            && (sortFails ==> apps == collected)
  {
    var collected := if packages.Some? then Collect(packages.value, cache) else [];
    SortByNameCorrect(collected);
    forall name ensures WithName(SortByName(collected), name) == WithName(collected, name) {
      SortByNameStable(collected, name);
    }
  }

  /** `getInstalledApps`: walks the packages, skipping those without an
      application info or a name and those whose processing faults, adds one
      record for each of the others, and sorts the result by name. */
  method GetInstalledApps(packages: Option<seq<PackageInfo>>, cache: IconCache, sortFails: bool)
    returns (apps: seq<AppRecord>)
    ensures apps == InstalledApps(packages, cache, sortFails)
  {
    var collected: seq<AppRecord> := [];
    if packages.Some? {
      var ps := packages.value;
      var i := 0;
      while i < |ps|
        invariant 0 <= i <= |ps|
        invariant collected == Collect(ps[..i], cache)
      {
        var p := ps[i];
        assert ps[..i + 1][..i] == ps[..i];
        i := i + 1;
        if p.applicationInfo.None? || p.packageName.None? {
          continue;
        }
        var info := p.applicationInfo.value;
        var name := p.packageName.value;
        var appName := if info.applicationLabel.Some? then info.applicationLabel.value else name;
        var isSystemApp := info.flags & FLAG_SYSTEM != 0;
        var iconPath := if info.icon.Some? then SaveAppIcon(info.icon.value, name, cache) else None;
        if p.faults {
          continue;
        }
        collected := collected + [AppRecord(name, appName, iconPath, isSystemApp, p.versionName, p.versionCode)];
      }
      assert ps[..|ps|] == ps;
    }
    if sortFails {
      apps := collected;
    } else {
      apps := SortByName(collected);
    }
  }
}
