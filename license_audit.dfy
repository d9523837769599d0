/**
 * The frontend license audit (scripts/audit_frontend_licenses.py): every package
 * listed under a license outside the allow-list is reported, unless it is a
 * known exception; exceptions that matched nothing are reported as unused; the
 * audit fails exactly when something was reported.
 */
module LicenseAudit {
  import opened PyText
  import opened Sorting

  /** One package listed under a license by `pnpm licenses list --json`. */
  datatype Package = Package(name: string, versions: seq<string>)

  /** `(name, ", ".join(versions))`: how a package is matched against the exceptions. */
  type PackageInfo = (string, string)

  /** One key of the decoded JSON object with the packages listed under it. */
  datatype LicenseEntry = LicenseEntry(license: string, packages: seq<Package>)

  /** One printed line of the audit. */
  datatype Line =
    | UnusedException(info: PackageInfo)
    | UnacceptableLicense(license: string, name: string, versions: string)
    | NoUnacceptableLicenses

  /** Licenses under which a dependency may be included. */
  const AcceptableLicenses: set<string> := {
    "MIT",
    "Apache-2.0",
    "Apache-2.0 WITH LLVM-exception",
    "0BSD",
    "BlueOak-1.0.0",
    "BSD-2-Clause",
    "BSD-3-Clause",
    "ISC",
    "CC0-1.0",
    "CC-BY-3.0",
    "CC-BY-4.0",
    "Python-2.0",
    "Zlib",
    "Unlicense",
    "WTFPL",
    "(MIT OR Apache-2.0)",
    "(MPL-2.0 OR Apache-2.0)",
    "(MIT OR CC0-1.0)",
    "(Apache-2.0 OR MPL-1.1)",
    "(BSD-3-Clause OR GPL-2.0)",
    "(MIT AND BSD-3-Clause)",
    "(MIT AND Zlib)",
    "(WTFPL OR MIT)",
    "(AFL-2.1 OR BSD-3-Clause)",
    "(BSD-2-Clause OR MIT OR Apache-2.0)",
    "(MIT OR GPL-3.0-or-later)",
    "Apache-2.0 AND MIT",
    "Apache*"
  }

  /** Packages whose license pnpm cannot parse but which are acceptable. */
  const PackageExceptions: set<PackageInfo> := {
    ("@plotly/mapbox-gl", "1.13.4"),
    ("stack-trace", "0.0.9"),
    ("mapbox-gl", "1.13.2"),
    ("@mapbox/jsonlint-lines-primitives", "2.0.2"),
    ("colorbrewer", "1.5.6")
  }

  function InfoOf(p: Package): PackageInfo {
    (p.name, Join(p.versions, ", "))
  }

  predicate IsExcepted(p: Package) {
    InfoOf(p) in PackageExceptions
  }

  // ---------------------------------------------------------------- specification

  /** `bad_licenses`: the entries whose license is not acceptable, in key order. */
  function BadLicenses(licenses: seq<LicenseEntry>): seq<LicenseEntry>
    decreases |licenses|
  {
    if licenses == [] then []
    else
      var last := licenses[|licenses| - 1];
      BadLicenses(licenses[..|licenses| - 1])
      + (if last.license in AcceptableLicenses then [] else [last])
  }

  /** The packages that are not exceptions, in their listed order. */
  function Reportable(packages: seq<Package>): seq<Package>
    decreases |packages|
  {
    if packages == [] then []
    else
      var last := packages[|packages| - 1];
      Reportable(packages[..|packages| - 1]) + (if IsExcepted(last) then [] else [last])
  }

  /** `bad_packages`: each bad license that has a reportable package, with those packages. */
  function BadPackages(bad: seq<LicenseEntry>): seq<LicenseEntry>
    decreases |bad|
  {
    if bad == [] then []
    else
      var last := bad[|bad| - 1];
      var kept := Reportable(last.packages);
      BadPackages(bad[..|bad| - 1]) + (if |kept| > 0 then [LicenseEntry(last.license, kept)] else [])
  }

  /** The match keys of a list of packages. */
  function Infos(packages: seq<Package>): set<PackageInfo>
    decreases |packages|
  {
    if packages == [] then {}
    else Infos(packages[..|packages| - 1]) + {InfoOf(packages[|packages| - 1])}
  }

  /** `bad_package_check`: the match keys of every package under a bad license. */
  function CheckedInfos(bad: seq<LicenseEntry>): set<PackageInfo>
    decreases |bad|
  {
    if bad == [] then {}
    else CheckedInfos(bad[..|bad| - 1]) + Infos(bad[|bad| - 1].packages)
  }

  /** What the audit flags for a decoded `pnpm licenses` object. */
  function Flagged(licenses: seq<LicenseEntry>): seq<LicenseEntry> {
    BadPackages(BadLicenses(licenses))
  }

  /** `unused_exceptions` */
  function UnusedExceptions(licenses: seq<LicenseEntry>): set<PackageInfo> {
    PackageExceptions - CheckedInfos(BadLicenses(licenses))
  }

  function UnusedLines(order: seq<PackageInfo>): seq<Line> {
    seq(|order|, i requires 0 <= i < |order| => UnusedException(order[i]))
  }

  function EntryLines(e: LicenseEntry): seq<Line> {
    seq(|e.packages|, i requires 0 <= i < |e.packages| =>
      UnacceptableLicense(e.license, e.packages[i].name, Join(e.packages[i].versions, ", ")))
  }

  /** One line per flagged package: grouped by license, in order. */
  function UnacceptableLines(flagged: seq<LicenseEntry>): seq<Line>
    decreases |flagged|
  {
    if flagged == [] then [] else EntryLines(flagged[0]) + UnacceptableLines(flagged[1..])
  }

  // ---------------------------------------------------------------- the audit

  /**
   * `check_licenses` on the decoded JSON object: returns what it flags, the unused
   * exceptions in the order they are printed, the printed lines and the exit code.
   */
  method CheckLicenses(licenses: seq<LicenseEntry>)
    returns (badPackages: seq<LicenseEntry>, unusedExceptions: seq<PackageInfo>, lines: seq<Line>, exitCode: int)
    ensures badPackages == Flagged(licenses)
    ensures IsSortedListing(unusedExceptions, UnusedExceptions(licenses), PairLess)
    ensures lines == UnusedLines(unusedExceptions)
                     + (if |badPackages| > 0 then UnacceptableLines(badPackages) else [NoUnacceptableLicenses])
    ensures exitCode == if |badPackages| > 0 then 1 else 0
  {
    var badLicenses := BadLicenses(licenses);
    badPackages := [];
    var badPackageCheck: set<PackageInfo> := {};
    for i := 0 to |badLicenses|
      invariant badPackages == BadPackages(badLicenses[..i])
      invariant badPackageCheck == CheckedInfos(badLicenses[..i])
    {
      var entry := badLicenses[i];
      var badPackagesForLicense: seq<Package> := [];
      for j := 0 to |entry.packages|
        invariant badPackagesForLicense == Reportable(entry.packages[..j])
        invariant badPackageCheck == CheckedInfos(badLicenses[..i]) + Infos(entry.packages[..j])
      {
        var package := entry.packages[j];
        var pkgTuple := InfoOf(package);
        badPackageCheck := badPackageCheck + {pkgTuple};
        if pkgTuple !in PackageExceptions {
          badPackagesForLicense := badPackagesForLicense + [package];
        }
        assert entry.packages[..j + 1][..j] == entry.packages[..j];
      }
      assert entry.packages[..|entry.packages|] == entry.packages;
      if |badPackagesForLicense| > 0 {
        badPackages := badPackages + [LicenseEntry(entry.license, badPackagesForLicense)];
      }
      assert badLicenses[..i + 1][..i] == badLicenses[..i];
    }
    assert badLicenses[..|badLicenses|] == badLicenses;

    var unused := PackageExceptions - badPackageCheck;
    PairLessOrders(unused);
    unusedExceptions := SortSet(unused, PairLess);
    lines := UnusedLines(unusedExceptions);
    if |badPackages| > 0 {
      lines := lines + UnacceptableLines(badPackages);
      exitCode := 1;
      return;
    }
    lines := lines + [NoUnacceptableLicenses];
    exitCode := 0;
  }

  // ---------------------------------------------------------------- properties

  /** A license is bad exactly when it is not on the allow-list. */
  lemma {:induction false} BadLicensesExactly(licenses: seq<LicenseEntry>)
    ensures forall e :: e in BadLicenses(licenses) <==> e in licenses && e.license !in AcceptableLicenses
    decreases |licenses|
  {
    if licenses != [] {
      var init := licenses[..|licenses| - 1];
      BadLicensesExactly(init);
      assert licenses == init + [licenses[|licenses| - 1]];
    }
  }

  /** A package is reportable exactly when it is listed and is not an exception. */
  lemma {:induction false} ReportableExactly(packages: seq<Package>)
    ensures forall p :: p in Reportable(packages) <==> p in packages && !IsExcepted(p)
    decreases |packages|
  {
    if packages != [] {
      var init := packages[..|packages| - 1];
      ReportableExactly(init);
      assert packages == init + [packages[|packages| - 1]];
    }
  }

  /** `Flagged` grows with the object one key at a time. */
  lemma FlaggedStep(licenses: seq<LicenseEntry>)
    requires licenses != []
    ensures var init, last := licenses[..|licenses| - 1], licenses[|licenses| - 1];
      Flagged(licenses) == Flagged(init)
        + (if last.license !in AcceptableLicenses && |Reportable(last.packages)| > 0
           then [LicenseEntry(last.license, Reportable(last.packages))] else [])
  {
    var init, last := licenses[..|licenses| - 1], licenses[|licenses| - 1];
    if last.license !in AcceptableLicenses {
      var b := BadLicenses(licenses);
      assert b == BadLicenses(init) + [last];
      assert b[..|b| - 1] == BadLicenses(init);
      assert b[|b| - 1] == last;
    } else {
      assert BadLicenses(licenses) == BadLicenses(init);
    }
  }

  /**
   * Every flagged entry is a bad license of the object, with a non-empty list that is
   * exactly the non-excepted packages listed under that license, in their order.
   */
  lemma {:induction false} FlaggedSound(licenses: seq<LicenseEntry>)
    ensures forall k :: 0 <= k < |Flagged(licenses)| ==>
      && Flagged(licenses)[k].license !in AcceptableLicenses
      && |Flagged(licenses)[k].packages| > 0
      && exists i :: 0 <= i < |licenses| && licenses[i].license == Flagged(licenses)[k].license
           && Flagged(licenses)[k].packages == Reportable(licenses[i].packages)
    decreases |licenses|
  {
    if licenses != [] {
      var init := licenses[..|licenses| - 1];
      FlaggedSound(init);
      FlaggedStep(licenses);
      var f := Flagged(licenses);
      forall k | 0 <= k < |f|
        ensures exists i :: (0 <= i < |licenses| && licenses[i].license == f[k].license
                             && f[k].packages == Reportable(licenses[i].packages))
      {
        if k < |Flagged(init)| {
          var i :| 0 <= i < |init| && init[i].license == f[k].license
            && f[k].packages == Reportable(init[i].packages);
          assert licenses[i] == init[i];
        } else {
          assert licenses[|licenses| - 1].license == f[k].license;
        }
      }
    }
  }

  /** Every bad license with a non-excepted package is flagged, with all such packages. */
  lemma {:induction false} FlaggedComplete(licenses: seq<LicenseEntry>)
    ensures forall i ::
      (0 <= i < |licenses| && licenses[i].license !in AcceptableLicenses
       && |Reportable(licenses[i].packages)| > 0) ==>
      LicenseEntry(licenses[i].license, Reportable(licenses[i].packages)) in Flagged(licenses)
    decreases |licenses|
  {
    if licenses != [] {
      var init := licenses[..|licenses| - 1];
      FlaggedComplete(init);
      FlaggedStep(licenses);
      forall i | 0 <= i < |licenses| - 1 ensures licenses[i] == init[i] { }
    }
  }

  /**
   * `idx` gives, for each entry of `flagged`, a position of the object holding that
   * license and the packages reported for it, and the positions strictly increase.
   */
  ghost predicate KeyPositions(licenses: seq<LicenseEntry>, flagged: seq<LicenseEntry>, idx: seq<nat>) {
    && |idx| == |flagged|
    && (forall k :: 0 <= k < |idx| ==>
          && idx[k] < |licenses|
          && licenses[idx[k]].license == flagged[k].license
          && flagged[k].packages == Reportable(licenses[idx[k]].packages))
    && (forall k1, k2 :: 0 <= k1 < k2 < |idx| ==> idx[k1] < idx[k2])
  }

  /** Flagged licenses come out in the order of the object's keys. */
  lemma {:induction false} FlaggedInKeyOrder(licenses: seq<LicenseEntry>)
    ensures exists idx :: KeyPositions(licenses, Flagged(licenses), idx)
    decreases |licenses|
  {
    if licenses == [] {
      var none: seq<nat> := [];
      assert KeyPositions(licenses, Flagged(licenses), none);
    } else {
      var n := |licenses|;
      var init := licenses[..n - 1];
      FlaggedInKeyOrder(init);
      FlaggedStep(licenses);
      var idx: seq<nat> :| KeyPositions(init, Flagged(init), idx);
      KeyPositionsLift(licenses, Flagged(init), idx);
      var f, g := Flagged(licenses), Flagged(init);
      if |f| == |g| {
        assert f == g;
      } else {
        KeyPositionsAppend(licenses, g, idx);
        assert KeyPositions(licenses, f, idx + [n - 1]);
      }
    }
  }

  /** Positions within all but the last entry are positions within the whole object. */
  lemma KeyPositionsLift(licenses: seq<LicenseEntry>, flagged: seq<LicenseEntry>, idx: seq<nat>)
    requires licenses != []
    requires KeyPositions(licenses[..|licenses| - 1], flagged, idx)
    ensures KeyPositions(licenses, flagged, idx)
    ensures forall k :: 0 <= k < |idx| ==> idx[k] < |licenses| - 1
  {
    var init := licenses[..|licenses| - 1];
    forall k | 0 <= k < |idx| ensures licenses[idx[k]] == init[idx[k]] {
    }
  }

  /** The last entry, reported after the rest, extends the positions by the last index. */
  lemma KeyPositionsAppend(licenses: seq<LicenseEntry>, flagged: seq<LicenseEntry>, idx: seq<nat>)
    requires licenses != []
    requires KeyPositions(licenses, flagged, idx)
    requires forall k :: 0 <= k < |idx| ==> idx[k] < |licenses| - 1
    ensures var last := licenses[|licenses| - 1];
      KeyPositions(licenses, flagged + [LicenseEntry(last.license, Reportable(last.packages))], idx + [|licenses| - 1])
  {
  }

  /** A match key has been checked exactly when some package under a bad license has it. */
  lemma {:induction false} CheckedInfosExactly(bad: seq<LicenseEntry>, x: PackageInfo)
    ensures x in CheckedInfos(bad) <==> exists e, p :: e in bad && p in e.packages && InfoOf(p) == x
    decreases |bad|
  {
    if bad != [] {
      var init, last := bad[..|bad| - 1], bad[|bad| - 1];
      CheckedInfosExactly(init, x);
      InfosExactly(last.packages, x);
      assert bad == init + [last];
    }
  }

  lemma {:induction false} InfosExactly(packages: seq<Package>, x: PackageInfo)
    ensures x in Infos(packages) <==> exists p :: p in packages && InfoOf(p) == x
    decreases |packages|
  {
    if packages != [] {
      var init := packages[..|packages| - 1];
      InfosExactly(init, x);
      assert packages == init + [packages[|packages| - 1]];
    }
  }

  /**
   * An exception is unused exactly when no package under a bad license matches it;
   * a match under an acceptable license does not count as a use.
   */
  lemma UnusedExactly(licenses: seq<LicenseEntry>, x: PackageInfo)
    ensures x in UnusedExceptions(licenses) <==>
      x in PackageExceptions
      && forall e, p :: e in licenses && e.license !in AcceptableLicenses && p in e.packages
           ==> InfoOf(p) != x
  {
    CheckedInfosExactly(BadLicenses(licenses), x);
    BadLicensesExactly(licenses);
  }

  /** The audit fails exactly when a package under a bad license is not an exception. */
  lemma FailsExactly(licenses: seq<LicenseEntry>)
    ensures |Flagged(licenses)| > 0 <==>
      exists e, p :: e in licenses && e.license !in AcceptableLicenses && p in e.packages && !IsExcepted(p)
  {
    var f := Flagged(licenses);
    if |f| > 0 {
      FlaggedSound(licenses);
      var i :| 0 <= i < |licenses| && licenses[i].license == f[0].license
        && f[0].packages == Reportable(licenses[i].packages);
      ReportableExactly(licenses[i].packages);
      assert f[0].packages[0] in Reportable(licenses[i].packages);
    }
    if exists e, p :: e in licenses && e.license !in AcceptableLicenses && p in e.packages && !IsExcepted(p) {
      var e, p :| e in licenses && e.license !in AcceptableLicenses && p in e.packages && !IsExcepted(p);
      var i :| 0 <= i < |licenses| && licenses[i] == e;
      ReportableExactly(e.packages);
      assert p in Reportable(e.packages);
      FlaggedComplete(licenses);
    }
  }

  /** An exception matched only under an acceptable license is reported as unused. */
  lemma ExceptionUnderAcceptableLicenseIsUnused()
    ensures var licenses := [LicenseEntry("MIT", [Package("colorbrewer", ["1.5.6"])])];
      && Flagged(licenses) == []
      && ("colorbrewer", "1.5.6") in UnusedExceptions(licenses)
  {
    var licenses := [LicenseEntry("MIT", [Package("colorbrewer", ["1.5.6"])])];
    assert licenses[..0] == [];
    UnusedExactly(licenses, ("colorbrewer", "1.5.6"));
  }

  /** The versions are joined before matching: a package with two versions misses a one-version exception. */
  lemma JoinedVersionsMustMatch()
    ensures var p := Package("mapbox-gl", ["1.13.2", "1.13.3"]);
      && IsExcepted(Package("mapbox-gl", ["1.13.2"]))
      && !IsExcepted(p)
      && Flagged([LicenseEntry("UNKNOWN", [p])]) == [LicenseEntry("UNKNOWN", [p])]
  {
    var p := Package("mapbox-gl", ["1.13.2", "1.13.3"]);
    assert Join(p.versions, ", ") == "1.13.2, 1.13.3";
    var licenses := [LicenseEntry("UNKNOWN", [p])];
    assert licenses[..0] == [];
    assert [p][..0] == [];
    assert Reportable([p]) == [p];
    assert BadLicenses(licenses) == licenses;
    assert BadPackages(licenses) == BadPackages([]) + [LicenseEntry("UNKNOWN", [p])];
  }
}
