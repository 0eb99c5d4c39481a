/** Object accounting and the final verdict of `IndependentPackageVerifier.verify`, from the point where the
    manifest's root digest has been checked.

    The audit ledger is verified as in `AuditChain`; the custody, certificate and cross-reference checks enter as
    their outcomes. */
module PackageVerdict {
  import opened Basics
  import AuditChain

  datatype File = File(sha256: string, size: int)

  /** What the verifier sees of an unpacked package: how it normalises a declared path, which file the package root
      joined with a path leads to, if any, and the relative paths of the files under the root.  A path may lead out
      of the package (`..`, absolute paths), so the last two need not agree. */
  datatype Package = Package(norm: string -> string, at: string -> Option<File>, listing: set<string>)

  /** An entry of the manifest's object list; `Malformed` is one without a usable relative path. */
  datatype Declared = Malformed | Declared(path: string, sha256: string, size: Option<int>)

  datatype Verdict = Pass | Tampered | Incomplete | Invalid

  datatype Summary = Summary(declared: nat, verified: nat, missing: nat, tampered: nat, unexpected: nat)

  /** What the phases behind the audit ledger report. */
  datatype LaterPhases = LaterPhases(custodyOk: bool, certificatesOk: bool, crossReferencesOk: bool)

  const STRUCTURAL_FILES: set<string> := {"manifest.json", "manifest.sha256", "README.txt", "readme.txt"}

  function Lower(s: string): string {
    if s == [] then [] else [if 'A' <= s[0] <= 'Z' then s[0] - 'A' + 'a' else s[0]] + Lower(s[1..])
  }

  predicate Matches(d: Declared, f: File)
    requires d.Declared?
  {
    (d.size.None? || f.size == d.size.value) && Lower(f.sha256) == Lower(d.sha256)
  }

  datatype Class = Verified | Missing | Altered

  /** How one declared object is counted. */
  function Classify(pkg: Package, d: Declared): Class
    requires d.Declared?
  {
    match pkg.at(pkg.norm(d.path))
    case None => Missing
    case Some(f) => if Matches(d, f) then Verified else Altered
  }

  function CountOf(pkg: Package, objects: seq<Declared>, c: Class): nat
    requires forall d <- objects :: d.Declared?
  {
    if objects == [] then 0 else
      var n := |objects| - 1;
      CountOf(pkg, objects[..n], c) + if Classify(pkg, objects[n]) == c then 1 else 0
  }

  predicate WellFormed(objects: seq<Declared>) {
    forall i :: 0 <= i < |objects| ==> objects[i].Declared?
  }

  function DeclaredPaths(pkg: Package, objects: seq<Declared>): set<string> {
    set d <- objects | d.Declared? :: pkg.norm(d.path)
  }

  /** The files that are neither structural nor declared. */
  function Extras(pkg: Package, objects: seq<Declared>): set<string> {
    set f <- pkg.listing | f !in STRUCTURAL_FILES && f !in DeclaredPaths(pkg, objects)
  }

  lemma {:induction false} CountZero(pkg: Package, objects: seq<Declared>, c: Class)
    requires WellFormed(objects)
    ensures CountOf(pkg, objects, c) == 0
       <==> forall i :: 0 <= i < |objects| ==> Classify(pkg, objects[i]) != c
  {
    if objects != [] {
      var n := |objects| - 1;
      CountZero(pkg, objects[..n], c);
      assert forall i :: 0 <= i < n ==> objects[..n][i] == objects[i];
    }
  }

  lemma OneMoreObject(pkg: Package, objects: seq<Declared>, d: Declared)
    requires WellFormed(objects) && d.Declared?
    ensures WellFormed(objects + [d])
    ensures forall c :: CountOf(pkg, objects + [d], c)
              == CountOf(pkg, objects, c) + if Classify(pkg, d) == c then 1 else 0
    ensures DeclaredPaths(pkg, objects + [d]) == DeclaredPaths(pkg, objects) + {pkg.norm(d.path)}
  {
    hide Classify;
    var longer := objects + [d];
    assert longer[..|objects|] == objects && longer[|objects|] == d;
    assert forall x :: x in longer <==> x in objects || x == d;
  }

  lemma NoObjects(pkg: Package)
    ensures forall c :: CountOf(pkg, [], c) == 0
    ensures DeclaredPaths(pkg, []) == {}
  {}

  /** The object loop: classifies every declared object, or stops at the first malformed entry. */
  method CheckObjects(pkg: Package, objects: seq<Declared>)
    returns (ok: bool, summary: Summary, paths: set<string>)
    ensures ok <==> WellFormed(objects)
    ensures summary.declared == |objects| && summary.unexpected == 0
    ensures ok ==> summary.verified == CountOf(pkg, objects, Verified)
    ensures ok ==> summary.missing == CountOf(pkg, objects, Missing)
    ensures ok ==> summary.tampered == CountOf(pkg, objects, Altered)
    ensures ok ==> summary.verified + summary.missing + summary.tampered == summary.declared
    ensures ok ==> paths == DeclaredPaths(pkg, objects)
  {
    hide Lower, Matches, CountOf, DeclaredPaths;
    var verified, missing, tampered := 0, 0, 0;
    NoObjects(pkg);
    paths := {};
    for i := 0 to |objects|
      invariant WellFormed(objects[..i])
      invariant verified == CountOf(pkg, objects[..i], Verified)
      invariant missing == CountOf(pkg, objects[..i], Missing)
      invariant tampered == CountOf(pkg, objects[..i], Altered)
      invariant verified + missing + tampered == i
      invariant paths == DeclaredPaths(pkg, objects[..i])
    {
      var d := objects[i];
      if d.Malformed? {
        return false, Summary(|objects|, verified, missing, tampered, 0), paths;
      }
      OneMoreObject(pkg, objects[..i], d);
      assert objects[..i + 1] == objects[..i] + [d];
      var target := pkg.norm(d.path);
      paths := paths + {target};
      var file := pkg.at(target);
      if file.None? {
        missing := missing + 1;
        continue;
      }
      if Matches(d, file.value) {
        verified := verified + 1;
      } else {
        tampered := tampered + 1;
      }
    }
    assert objects[..|objects|] == objects;
    return true, Summary(|objects|, verified, missing, tampered, 0), paths;
  }

  /** A package without an audit ledger passes this phase, one with a ledger if the chain is accepted. */
  ghost predicate AuditPasses(p: AuditChain.Primitives, audit: Option<AuditChain.Parsed>) {
    audit.Some? ==> audit.value.Value? && audit.value.json.Arr? && AuditChain.Accepted(p, audit.value.json.items)
  }

  /** The conditions a package has to meet to pass. */
  ghost predicate Intact(pkg: Package, objects: seq<Declared>,
                         p: AuditChain.Primitives, audit: Option<AuditChain.Parsed>, later: LaterPhases)
  {
    && WellFormed(objects)
    && (forall i :: 0 <= i < |objects| ==>
          var f := pkg.at(pkg.norm(objects[i].path)); f.Some? && Matches(objects[i], f.value))
    && Extras(pkg, objects) == {}
    && AuditPasses(p, audit) && later == LaterPhases(true, true, true)
  }

  /** The same letters, upper or lower case. */
  predicate SameLetters(a: string, b: string) {
    |a| == |b| && forall i :: 0 <= i < |a| ==> SameLetter(a[i], b[i])
  }

  predicate SameLetter(c: char, d: char) {
    || c == d
    || ('A' <= c <= 'Z' && d as int == c as int + 32)
    || ('A' <= d <= 'Z' && c as int == d as int + 32)
  }

  lemma {:induction false} LowerMeans(a: string, b: string)
    ensures Lower(a) == Lower(b) <==> SameLetters(a, b)
  {
    if a == [] || b == [] {
    } else {
      LowerMeans(a[1..], b[1..]);
      assert Lower(a) == [Lower(a)[0]] + Lower(a[1..]) && Lower(b) == [Lower(b)[0]] + Lower(b[1..]);
      assert Lower(a)[1..] == Lower(a[1..]) && Lower(b)[1..] == Lower(b[1..]);
      SameLettersStep(a, b);
    }
  }

  lemma SameLettersStep(a: string, b: string)
    requires a != [] && b != []
    ensures SameLetters(a, b) <==> SameLetter(a[0], b[0]) && SameLetters(a[1..], b[1..])
  {
    hide SameLetter;
    if SameLetter(a[0], b[0]) && SameLetters(a[1..], b[1..]) {
      forall i | 0 <= i < |a| ensures SameLetter(a[i], b[i]) {
        if i > 0 { assert a[1..][i - 1] == a[i] && b[1..][i - 1] == b[i]; }
      }
    }
  }

  /** The declared path leads to a file with the declared digest and, where one is declared, size. */
  predicate AsDeclared(pkg: Package, d: Declared) {
    && d.Declared? && pkg.at(pkg.norm(d.path)).Some?
    && var f := pkg.at(pkg.norm(d.path)).value;
       SameLetters(f.sha256, d.sha256) && (d.size == None || d.size == Some(f.size))
  }

  /** A file that is neither one of the four structural ones nor declared. */
  ghost predicate Surplus(pkg: Package, objects: seq<Declared>, f: string) {
    && f in pkg.listing && f != "manifest.json" && f != "manifest.sha256" && f != "README.txt" && f != "readme.txt"
    && forall i :: 0 <= i < |objects| && objects[i].Declared? ==> pkg.norm(objects[i].path) != f
  }

  /** Everything a package needs to pass. */
  ghost predicate InOrder(pkg: Package, objects: seq<Declared>, p: AuditChain.Primitives,
                          audit: Option<AuditChain.Parsed>, later: LaterPhases)
  {
    && (forall i :: 0 <= i < |objects| ==> AsDeclared(pkg, objects[i]))
    && (forall f :: !Surplus(pkg, objects, f))
    && AuditPasses(p, audit) && later.custodyOk && later.certificatesOk && later.crossReferencesOk
  }

  lemma MatchesMeans(pkg: Package, d: Declared)
    requires d.Declared?
    ensures AsDeclared(pkg, d) <==>
      var f := pkg.at(pkg.norm(d.path)); f.Some? && Matches(d, f.value)
  {
    if pkg.at(pkg.norm(d.path)).Some? { LowerMeans(pkg.at(pkg.norm(d.path)).value.sha256, d.sha256); }
    hide Lower, SameLetters;
  }

  lemma ExtrasMean(pkg: Package, objects: seq<Declared>, f: string)
    ensures f in Extras(pkg, objects) <==> Surplus(pkg, objects, f)
  {
    if f in DeclaredPaths(pkg, objects) {
      var d :| d in objects && d.Declared? && pkg.norm(d.path) == f;
      var i :| 0 <= i < |objects| && objects[i] == d;
    }
    if i :| 0 <= i < |objects| && objects[i].Declared? && pkg.norm(objects[i].path) == f {
      assert objects[i] in objects;
    }
  }

  lemma IntactMeans(pkg: Package, objects: seq<Declared>, p: AuditChain.Primitives, audit: Option<AuditChain.Parsed>,
                    later: LaterPhases)
    ensures Intact(pkg, objects, p, audit, later) <==> InOrder(pkg, objects, p, audit, later)
  {
    hide AuditPasses, Extras, Surplus, AsDeclared, Matches;
    forall i | 0 <= i < |objects| && objects[i].Declared?
      ensures AsDeclared(pkg, objects[i]) <==>
        var f := pkg.at(pkg.norm(objects[i].path)); f.Some? && Matches(objects[i], f.value)
    {
      MatchesMeans(pkg, objects[i]);
    }
    forall f ensures f in Extras(pkg, objects) <==> Surplus(pkg, objects, f) {
      ExtrasMean(pkg, objects, f);
    }
    forall i | 0 <= i < |objects| && AsDeclared(pkg, objects[i]) ensures objects[i].Declared? {
      AsDeclaredIsDeclared(pkg, objects[i]);
    }
  }

  /** Which objects are counted as verified, and which as missing. */
  function VerifiedAt(pkg: Package, objects: seq<Declared>): set<int> {
    set i | 0 <= i < |objects| && AsDeclared(pkg, objects[i])
  }

  function MissingAt(pkg: Package, objects: seq<Declared>): set<int> {
    set i | 0 <= i < |objects| && objects[i].Declared? && pkg.at(pkg.norm(objects[i].path)).None?
  }

  lemma {:induction false} CountsMean(pkg: Package, objects: seq<Declared>)
    requires WellFormed(objects)
    ensures CountOf(pkg, objects, Verified) == |VerifiedAt(pkg, objects)|
    ensures CountOf(pkg, objects, Missing) == |MissingAt(pkg, objects)|
  {
    if objects == [] {
      assert VerifiedAt(pkg, objects) == {} && MissingAt(pkg, objects) == {};
    } else {
      var n := |objects| - 1;
      var front, last := objects[..n], objects[n];
      CountsMean(pkg, front);
      MatchesMeans(pkg, last);
      OneMoreVerified(pkg, objects);
      OneMoreMissing(pkg, objects);
      hide Matches, AsDeclared, VerifiedAt, MissingAt;
    }
  }

  lemma OneMoreVerified(pkg: Package, objects: seq<Declared>)
    requires objects != []
    ensures var n := |objects| - 1;
      |VerifiedAt(pkg, objects)| == |VerifiedAt(pkg, objects[..n])| + if AsDeclared(pkg, objects[n]) then 1 else 0
  {
    hide AsDeclared;
    var n := |objects| - 1;
    assert VerifiedAt(pkg, objects) == VerifiedAt(pkg, objects[..n]) + if AsDeclared(pkg, objects[n]) then {n} else {};
  }

  lemma OneMoreMissing(pkg: Package, objects: seq<Declared>)
    requires objects != []
    ensures var n := |objects| - 1;
      |MissingAt(pkg, objects)| == |MissingAt(pkg, objects[..n])|
        + if objects[n].Declared? && pkg.at(pkg.norm(objects[n].path)).None? then 1 else 0
  {
    var n := |objects| - 1;
    assert MissingAt(pkg, objects) == MissingAt(pkg, objects[..n])
      + if objects[n].Declared? && pkg.at(pkg.norm(objects[n].path)).None? then {n} else {};
  }

  lemma AsDeclaredIsDeclared(pkg: Package, d: Declared)
    requires AsDeclared(pkg, d)
    ensures d.Declared?
  {}

  /** From the object list to the verdict: a missing object outranks every sign of tampering. */
  method Verify(pkg: Package, objects: seq<Declared>,
                p: AuditChain.Primitives, audit: Option<AuditChain.Parsed>, later: LaterPhases)
    returns (verdict: Verdict, summary: Summary)
    ensures verdict == Invalid <==> !WellFormed(objects)
    ensures verdict == Incomplete <==>
      WellFormed(objects) && exists i :: 0 <= i < |objects| && pkg.at(pkg.norm(objects[i].path)).None?
    ensures verdict == Pass <==> Intact(pkg, objects, p, audit, later)
    ensures verdict == Pass <==> InOrder(pkg, objects, p, audit, later)
    ensures verdict == Tampered <==>
      && (forall i :: 0 <= i < |objects| ==> objects[i].Declared? && pkg.at(pkg.norm(objects[i].path)).Some?)
      && !InOrder(pkg, objects, p, audit, later)
    ensures verdict != Invalid ==>
      && summary.verified == |VerifiedAt(pkg, objects)| && summary.missing == |MissingAt(pkg, objects)|
    ensures verdict != Invalid ==>
      && summary.verified + summary.missing + summary.tampered == summary.declared == |objects|
      && summary.unexpected == |Extras(pkg, objects)|
  {
    IntactMeans(pkg, objects, p, audit, later);
    hide InOrder;
    var ok, counts, paths := CheckObjects(pkg, objects);
    if !ok {
      return Invalid, counts;
    }
    CountsMean(pkg, objects);
    hide VerifiedAt, MissingAt;
    var extras := CountExtras(pkg.listing, paths);
    assert Extras(pkg, objects) == set f <- pkg.listing | f !in STRUCTURAL_FILES && f !in paths;
    summary := counts.(unexpected := extras);
    CountZero(pkg, objects, Missing);
    CountZero(pkg, objects, Altered);
    var auditOk := true;
    if audit.Some? {
      var verified, bad;
      auditOk, verified, bad := AuditChain.VerifyAuditChain(p, audit.value);
    }
    var hasTampered := counts.tampered > 0 || extras > 0 || !auditOk || !later.custodyOk || !later.certificatesOk
                       || !later.crossReferencesOk;
    verdict := if counts.missing > 0 then Incomplete else if hasTampered then Tampered else Pass;
  }

  method CountExtras(listing: set<string>, paths: set<string>) returns (count: nat)
    ensures count == |set f <- listing | f !in STRUCTURAL_FILES && f !in paths|
  {
    count := 0;
    var left := listing;
    ghost var seen: set<string> := {};
    while left != {}
      invariant left <= listing
      invariant seen == set f | f in listing - left && f !in STRUCTURAL_FILES && f !in paths
      invariant count == |seen|
    {
      var f :| f in left;
      if f !in STRUCTURAL_FILES && f !in paths {
        count := count + 1;
        seen := seen + {f};
      }
      left := left - {f};
    }
    assert seen == set f <- listing | f !in STRUCTURAL_FILES && f !in paths;
  }

  // ---------- What a pass says about the package ----------

  ghost predicate Declares(objects: seq<Declared>, paths: seq<string>) {
    |objects| == |paths| && forall i :: 0 <= i < |paths| ==> objects[i].Declared? && objects[i].path == paths[i]
  }

  predicate Resolves(pkg: Package, paths: seq<string>) {
    forall i :: 0 <= i < |paths| ==> pkg.at(pkg.norm(paths[i])).Some?
  }

  /** The package's own files hold everything that is declared. */
  predicate Holds(pkg: Package, paths: seq<string>) {
    forall i :: 0 <= i < |paths| ==> pkg.norm(paths[i]) in pkg.listing
  }

  predicate NoExtras(pkg: Package, paths: seq<string>) {
    forall f <- pkg.listing :: f in STRUCTURAL_FILES || exists i :: 0 <= i < |paths| && pkg.norm(paths[i]) == f
  }

  /** A passing package with these declared paths always holds what it declares. */
  ghost predicate PassMeansHeld(pkg: Package, paths: seq<string>) {
    forall objects, p, audit, later :: Declares(objects, paths) && Intact(pkg, objects, p, audit, later) ==>
      Holds(pkg, paths)
  }

  /** The manifest that declares the paths with the digests of the files they lead to. */
  function ManifestOf(pkg: Package, paths: seq<string>): seq<Declared>
    requires Resolves(pkg, paths)
  {
    seq(|paths|, i requires 0 <= i < |paths| =>
      Declared.Declared(paths[i], pkg.at(pkg.norm(paths[i])).value.sha256, None))
  }

  lemma ManifestIsIntact(pkg: Package, paths: seq<string>, p: AuditChain.Primitives)
    requires Resolves(pkg, paths) && NoExtras(pkg, paths)
    ensures Declares(ManifestOf(pkg, paths), paths)
    ensures Intact(pkg, ManifestOf(pkg, paths), p, None, LaterPhases(true, true, true))
  {
    var objects := ManifestOf(pkg, paths);
    forall f | f in pkg.listing && f !in STRUCTURAL_FILES ensures f in DeclaredPaths(pkg, objects) {
      var i :| 0 <= i < |paths| && pkg.norm(paths[i]) == f;
      assert objects[i] in objects;
    }
    assert Extras(pkg, objects) == {};
  }

  lemma NothingExtra(pkg: Package, objects: seq<Declared>, paths: seq<string>)
    requires Declares(objects, paths) && Extras(pkg, objects) == {}
    ensures NoExtras(pkg, paths)
  {
    forall f | f in pkg.listing && f !in STRUCTURAL_FILES
      ensures exists i :: 0 <= i < |paths| && pkg.norm(paths[i]) == f
    {
      assert f !in Extras(pkg, objects);
      var d :| d in objects && d.Declared? && pkg.norm(d.path) == f;
      var i :| 0 <= i < |objects| && objects[i] == d;
      assert pkg.norm(paths[i]) == f;
    }
  }

  /** PASS means that the package holds its declared objects if and only if, when all declared paths lead to a file
      and no listed file is undeclared, the listing has all of them. */
  lemma PassMeansHeldIff(pkg: Package, paths: seq<string>, p: AuditChain.Primitives)
    ensures PassMeansHeld(pkg, paths) <==> (Resolves(pkg, paths) && NoExtras(pkg, paths) ==> Holds(pkg, paths))
  {
    hide AuditPasses, NoExtras, Holds;
    if Resolves(pkg, paths) && NoExtras(pkg, paths) && PassMeansHeld(pkg, paths) {
      ManifestIsIntact(pkg, paths, p);
    }
    forall objects, q, audit, later | Declares(objects, paths) && Intact(pkg, objects, q, audit, later)
      ensures Resolves(pkg, paths) && NoExtras(pkg, paths)
    {
      NothingExtra(pkg, objects, paths);
    }
  }

  /** A declared path that leads out of the package: the manifest of a package without any files passes. */
  lemma OutsideObjectPasses(pkg: Package, f: File, p: AuditChain.Primitives)
    requires pkg.norm("../outside.bin") == "../outside.bin" && pkg.at("../outside.bin") == Some(f)
    requires pkg.listing <= STRUCTURAL_FILES
    ensures var objects := [Declared.Declared("../outside.bin", f.sha256, Some(f.size))];
      Intact(pkg, objects, p, None, LaterPhases(true, true, true)) && !Holds(pkg, ["../outside.bin"])
    ensures !PassMeansHeld(pkg, ["../outside.bin"])
  {
    var objects := [Declared.Declared("../outside.bin", f.sha256, Some(f.size))];
    assert Extras(pkg, objects) == {};
    assert Intact(pkg, objects, p, None, LaterPhases(true, true, true));
    assert Declares(objects, ["../outside.bin"]);
    assert pkg.norm(["../outside.bin"][0]) !in pkg.listing;
  }

  /** Where the path leads back into the package under another name, the object counts as verified and the file it
      names as unexpected. */
  lemma DetourIsUnexpected(pkg: Package, d: Declared, f: string)
    requires d.Declared? && pkg.at(pkg.norm(d.path)).Some? && Matches(d, pkg.at(pkg.norm(d.path)).value)
    requires pkg.norm(d.path) != f && f in pkg.listing && f !in STRUCTURAL_FILES
    ensures Classify(pkg, d) == Verified && f in Extras(pkg, [d])
  {}
}
