/** Linking creation bytecode: every fixup of a known library is overwritten with its address. */
module Linking {
  import opened Wrappers
  import Sequences

  datatype Fixup = Fixup(start: nat, length: nat)

  datatype LibraryFixups = LibraryFixups(name: string, fixups: seq<Fixup>)

  /** The link references of an artifact: per source file, per library, the byte ranges to fill. */
  type References = seq<seq<LibraryFixups>>

  /** One place to fill. */
  datatype Site = Site(library: string, fixup: Fixup)

  function Min(a: nat, b: nat): nat { if a < b then a else b }

  /** `s.substring(0, n)` and `s.substring(n)`. */
  function Before(s: string, n: nat): string { s[..Min(n, |s|)] }

  function From(s: string, n: nat): string { s[Min(n, |s|)..] }

  function Spliced(s: string, f: Fixup, address: string): string {
    Before(s, 2 + f.start * 2) + From(address, 2) + From(s, 2 + (f.start + f.length) * 2)
  }

  /** A library without an address (or with an empty one) is skipped. */
  predicate Known(libraries: map<string, string>, name: string) {
    name in libraries && libraries[name] != ""
  }

  function SitesOfLibrary(l: LibraryFixups): seq<Site> {
    seq(|l.fixups|, i requires 0 <= i < |l.fixups| => Site(l.name, l.fixups[i]))
  }

  function SitesOfFile(file: seq<LibraryFixups>): seq<Site> {
    if file == [] then [] else SitesOfFile(file[..|file| - 1]) + SitesOfLibrary(file[|file| - 1])
  }

  function Sites(refs: References): seq<Site> {
    if refs == [] then [] else Sites(refs[..|refs| - 1]) + SitesOfFile(refs[|refs| - 1])
  }

  function Linked(s: string, sites: seq<Site>, libraries: map<string, string>): string {
    if sites == [] then s
    else
      var done := Linked(s, sites[..|sites| - 1], libraries);
      var last := sites[|sites| - 1];
      if Known(libraries, last.library) then Spliced(done, last.fixup, libraries[last.library]) else done
  }

  /** An artifact whose references are absent is left alone. */
  method LinkArtifactLibraries(artifact: string, refs: Option<References>, libraries: map<string, string>)
    returns (bytecode: string)
    ensures bytecode == if refs.Some? then Linked(artifact, Sites(refs.value), libraries) else artifact
  {
    bytecode := artifact;
    if refs.None? {
      return;
    }
    ghost var done: seq<Site> := [];
    for i := 0 to |refs.value|
      invariant done == Sites(refs.value[..i]) && bytecode == Linked(artifact, done, libraries)
    {
      bytecode := LinkFile(bytecode, refs.value[i], libraries, artifact, done);
      assert refs.value[..i + 1][..i] == refs.value[..i];
      done := done + SitesOfFile(refs.value[i]);
    }
    assert refs.value[..|refs.value|] == refs.value;
  }

  /** The libraries of one source file. */
  method LinkFile(start: string, file: seq<LibraryFixups>, libraries: map<string, string>,
                  ghost artifact: string, ghost before: seq<Site>) returns (bytecode: string)
    requires start == Linked(artifact, before, libraries)
    ensures bytecode == Linked(artifact, before + SitesOfFile(file), libraries)
  {
    bytecode := start;
    ghost var done := before;
    Sequences.Unit(before);
    for j := 0 to |file|
      invariant done == before + SitesOfFile(file[..j])
      invariant bytecode == Linked(artifact, done, libraries)
    {
      if Known(libraries, file[j].name) {
        bytecode := SpliceFixups(bytecode, file[j], libraries, artifact, done);
      } else {
        UnknownSkipped(artifact, done, SitesOfLibrary(file[j]), libraries);
      }
      FileSnoc(file, j);
      Sequences.Associates(before, SitesOfFile(file[..j]), SitesOfLibrary(file[j]));
      done := done + SitesOfLibrary(file[j]);
    }
    WholeTaken(file);
  }

  /** Every fixup of one library. */
  method SpliceFixups(start: string, l: LibraryFixups, libraries: map<string, string>,
                      ghost artifact: string, ghost before: seq<Site>) returns (bytecode: string)
    requires Known(libraries, l.name) && start == Linked(artifact, before, libraries)
    ensures bytecode == Linked(artifact, before + SitesOfLibrary(l), libraries)
  {
    bytecode := start;
    ghost var done := before;
    Sequences.Unit(before);
    for k := 0 to |l.fixups|
      invariant done == before + SitesOfLibrary(l)[..k]
      invariant bytecode == Linked(artifact, done, libraries)
    {
      bytecode := Spliced(bytecode, l.fixups[k], libraries[l.name]);
      LinkedSnoc(artifact, done, Site(l.name, l.fixups[k]), libraries);
      LibrarySnoc(l, k);
      Sequences.Associates(before, SitesOfLibrary(l)[..k], [Site(l.name, l.fixups[k])]);
      done := done + [Site(l.name, l.fixups[k])];
    }
    WholeTaken(SitesOfLibrary(l));
  }

  lemma WholeTaken<T>(s: seq<T>)
    ensures s[..|s|] == s
  {
  }

  lemma FileSnoc(file: seq<LibraryFixups>, j: nat)
    requires j < |file|
    ensures SitesOfFile(file[..j + 1]) == SitesOfFile(file[..j]) + SitesOfLibrary(file[j])
  {
    assert file[..j + 1][..j] == file[..j];
  }

  lemma LibrarySnoc(l: LibraryFixups, k: nat)
    requires k < |l.fixups|
    ensures SitesOfLibrary(l)[..k + 1] == SitesOfLibrary(l)[..k] + [Site(l.name, l.fixups[k])]
  {
  }

  lemma LinkedSnoc(s: string, sites: seq<Site>, site: Site, libraries: map<string, string>)
    ensures Linked(s, sites + [site], libraries)
         == if Known(libraries, site.library)
            then Spliced(Linked(s, sites, libraries), site.fixup, libraries[site.library])
            else Linked(s, sites, libraries)
  {
    assert (sites + [site])[..|sites|] == sites;
  }

  lemma {:induction false} UnknownSkipped(s: string, before: seq<Site>, skipped: seq<Site>,
                                        libraries: map<string, string>)
    requires forall i :: 0 <= i < |skipped| ==> !Known(libraries, skipped[i].library)
    ensures Linked(s, before + skipped, libraries) == Linked(s, before, libraries)
  {
    if skipped == [] {
      assert before + skipped == before;
    } else {
      var n := |skipped| - 1;
      assert (before + skipped)[..|before| + n] == before + skipped[..n];
      UnknownSkipped(s, before, skipped[..n], libraries);
    }
  }

  // ---------------------------------------------------------------- what the loops compute

  /** Twenty-byte ranges inside the code. */
  predicate Fits(s: string, site: Site) {
    site.fixup.length == 20 && 2 + (site.fixup.start + 20) * 2 <= |s|
  }

  predicate Apart(a: Fixup, b: Fixup) {
    a.start + a.length <= b.start || b.start + b.length <= a.start
  }

  predicate WellPlaced(s: string, sites: seq<Site>, libraries: map<string, string>) {
    && (forall i :: 0 <= i < |sites| ==> Fits(s, sites[i]))
    && (forall i, j :: 0 <= i < j < |sites| ==> Apart(sites[i].fixup, sites[j].fixup))
    && (forall l <- libraries :: Known(libraries, l) ==> |libraries[l]| == 42)
  }

  predicate Covers(site: Site, p: nat) {
    2 + site.fixup.start * 2 <= p < 2 + (site.fixup.start + site.fixup.length) * 2
  }

  /** The site of a known library that covers this position, if any. */
  predicate Fills(sites: seq<Site>, libraries: map<string, string>, i: int, p: nat) {
    0 <= i < |sites| && Known(libraries, sites[i].library) && Covers(sites[i], p)
  }

  lemma SplicedAt(s: string, site: Site, address: string, p: nat)
    requires Fits(s, site) && |address| == 42 && p < |s|
    ensures |Spliced(s, site.fixup, address)| == |s|
    ensures Spliced(s, site.fixup, address)[p]
         == if Covers(site, p) then address[p - site.fixup.start * 2] else s[p]
  {
  }

  lemma {:induction false} LinkedLength(s: string, sites: seq<Site>, libraries: map<string, string>)
    requires WellPlaced(s, sites, libraries)
    ensures |Linked(s, sites, libraries)| == |s|
  {
    if sites != [] {
      LinkedLength(s, sites[..|sites| - 1], libraries);
    }
  }

  /**
   * Linking keeps the length, and each position holds the digit of the one library whose fixup
   * covers it, or the original digit.
   */
  lemma {:induction false} LinkedAt(s: string, sites: seq<Site>, libraries: map<string, string>, p: nat)
    requires WellPlaced(s, sites, libraries) && p < |s|
    ensures var r := Linked(s, sites, libraries);
            && |r| == |s|
            && (forall i :: Fills(sites, libraries, i, p) ==>
                  r[p] == libraries[sites[i].library][p - sites[i].fixup.start * 2])
            && ((forall i :: !Fills(sites, libraries, i, p)) ==> r[p] == s[p])
  {
    if sites != [] {
      var n := |sites| - 1;
      var init, last := sites[..n], sites[n];
      LinkedAt(s, init, libraries, p);
      var done := Linked(s, init, libraries);
      if Known(libraries, last.library) {
        SplicedAt(done, last, libraries[last.library], p);
      }
      FillsSnoc(s, sites, libraries, p);
    }
  }

  /** One more site: it covers the position, or what covers it is among the others. */
  lemma FillsSnoc(s: string, sites: seq<Site>, libraries: map<string, string>, p: nat)
    requires WellPlaced(s, sites, libraries) && sites != []
    ensures var n := |sites| - 1;
            && (Fills(sites, libraries, n, p) <==> Known(libraries, sites[n].library) && Covers(sites[n], p))
            && (forall i :: i < n ==> (Fills(sites, libraries, i, p) <==> Fills(sites[..n], libraries, i, p)))
            && (forall i :: i < n && Fills(sites, libraries, i, p) ==> !Covers(sites[n], p))
  {
    var n := |sites| - 1;
    forall i | i < n && Fills(sites, libraries, i, p) ensures !Covers(sites[n], p) {
      assert Apart(sites[i].fixup, sites[n].fixup);
    }
  }

  /** Fixup `k` of library `j` of file `i`. */
  predicate Refers(refs: References, i: int, j: int, k: int, x: Site) {
    && 0 <= i < |refs| && 0 <= j < |refs[i]| && 0 <= k < |refs[i][j].fixups|
    && x == Site(refs[i][j].name, refs[i][j].fixups[k])
  }

  /** Every site is a fixup of a library of a file. */
  lemma {:induction false} SiteRefers(refs: References, x: Site) returns (i: int, j: int, k: int)
    requires x in Sites(refs)
    ensures Refers(refs, i, j, k, x)
  {
    var n := |refs| - 1;
    if x in Sites(refs[..n]) {
      i, j, k := SiteRefers(refs[..n], x);
    } else {
      i := n;
      j, k := FileSiteRefers(refs[n], x);
    }
  }

  lemma {:induction false} FileSiteRefers(file: seq<LibraryFixups>, x: Site) returns (j: int, k: int)
    requires x in SitesOfFile(file)
    ensures 0 <= j < |file| && 0 <= k < |file[j].fixups| && x == Site(file[j].name, file[j].fixups[k])
  {
    var n := |file| - 1;
    if x in SitesOfFile(file[..n]) {
      j, k := FileSiteRefers(file[..n], x);
    } else {
      j := n;
      k :| 0 <= k < |SitesOfLibrary(file[n])| && SitesOfLibrary(file[n])[k] == x;
    }
  }

  /** And every fixup of every library of every file is a site. */
  lemma {:induction false} RefersSite(refs: References, i: int, j: int, k: int, x: Site)
    requires Refers(refs, i, j, k, x)
    ensures x in Sites(refs)
  {
    var n := |refs| - 1;
    if i < n {
      RefersSite(refs[..n], i, j, k, x);
    } else {
      FileRefersSite(refs[n], j, k, x);
    }
  }

  lemma {:induction false} FileRefersSite(file: seq<LibraryFixups>, j: int, k: int, x: Site)
    requires 0 <= j < |file| && 0 <= k < |file[j].fixups| && x == Site(file[j].name, file[j].fixups[k])
    ensures x in SitesOfFile(file)
  {
    var n := |file| - 1;
    if j < n {
      FileRefersSite(file[..n], j, k, x);
    } else {
      assert SitesOfLibrary(file[n])[k] == x;
    }
  }

  /** A library that has an address is linked: its forty digits stand wherever the artifact refers to it. */
  lemma LibraryIsLinked(artifact: string, refs: References, libraries: map<string, string>, i: nat, j: nat, k: nat,
                        p: nat)
    requires WellPlaced(artifact, Sites(refs), libraries)
    requires i < |refs| && j < |refs[i]| && k < |refs[i][j].fixups| && refs[i][j].name in libraries
    requires libraries[refs[i][j].name] != "" && p < 40
    ensures var r := Linked(artifact, Sites(refs), libraries);
            var at := 2 + refs[i][j].fixups[k].start * 2;
            |libraries[refs[i][j].name]| == 42 && at + 40 <= |r| == |artifact|
            && r[at + p] == libraries[refs[i][j].name][2 + p]
  {
    var x := Site(refs[i][j].name, refs[i][j].fixups[k]);
    RefersSite(refs, i, j, k, x);
    var m :| 0 <= m < |Sites(refs)| && Sites(refs)[m] == x;
    assert Fits(artifact, Sites(refs)[m]);
    var at := 2 + x.fixup.start * 2;
    LinkedAt(artifact, Sites(refs), libraries, at + p);
    assert Fills(Sites(refs), libraries, m, at + p);
  }

  /** A reference to a library with an address takes up this position. */
  predicate Taken(refs: References, libraries: map<string, string>, i: int, j: int, k: int, p: nat) {
    && 0 <= i < |refs| && 0 <= j < |refs[i]| && 0 <= k < |refs[i][j].fixups|
    && refs[i][j].name in libraries && libraries[refs[i][j].name] != ""
    && 2 + refs[i][j].fixups[k].start * 2 <= p < 42 + refs[i][j].fixups[k].start * 2
  }

  /** Everywhere else the artifact stays as it was. */
  lemma ElsewhereKept(artifact: string, refs: References, libraries: map<string, string>, p: nat)
    requires WellPlaced(artifact, Sites(refs), libraries) && p < |artifact|
    ensures |Linked(artifact, Sites(refs), libraries)| == |artifact|
    ensures (forall i, j, k :: !Taken(refs, libraries, i, j, k, p)) ==>
              Linked(artifact, Sites(refs), libraries)[p] == artifact[p]
  {
    LinkedAt(artifact, Sites(refs), libraries, p);
    if m :| Fills(Sites(refs), libraries, m, p) {
      var x := Sites(refs)[m];
      assert x in Sites(refs) && Fits(artifact, x);
      var i, j, k := SiteRefers(refs, x);
      assert Taken(refs, libraries, i, j, k, p);
    }
  }

  /** The result does not depend on the order of files, libraries or fixups. */
  lemma LinkOrderIrrelevant(s: string, sites: seq<Site>, sites': seq<Site>, libraries: map<string, string>)
    requires WellPlaced(s, sites, libraries) && WellPlaced(s, sites', libraries)
    requires forall x :: x in sites <==> x in sites'
    ensures Linked(s, sites, libraries) == Linked(s, sites', libraries)
  {
    var a, b := Linked(s, sites, libraries), Linked(s, sites', libraries);
    LinkedLength(s, sites, libraries);
    LinkedLength(s, sites', libraries);
    forall p | 0 <= p < |s| ensures a[p] == b[p] {
      LinkedAt(s, sites, libraries, p);
      LinkedAt(s, sites', libraries, p);
      if i :| Fills(sites, libraries, i, p) {
        assert sites[i] in sites';
        var j :| 0 <= j < |sites'| && sites'[j] == sites[i];
        assert Fills(sites', libraries, j, p);
      } else if j :| Fills(sites', libraries, j, p) {
        assert sites'[j] in sites;
        var i :| 0 <= i < |sites| && sites[i] == sites'[j];
        assert Fills(sites, libraries, i, p);
      }
    }
  }
}
