/** From the labels of the pull requests to the headings under which the releases show them. */
module LabelTheorems {
  import opened Wrappers
  import opened Sequences
  import opened PyText
  import opened ChangelogModel
  import opened UpdateChangelog
  import opened ReleaserSpec
  import opened ReleaseLines
  import opened ChangelogRoundTrip
  import opened OlderText
  import opened ReleaseTheorems
  import VersionScheme

  // ---------- one release label ----------

  /** How many of the labels are release labels. */
  function CountRelease(labels: seq<string>): nat {
    if labels == [] then 0 else (if "release::" <= labels[0] then 1 else 0) + CountRelease(labels[1..])
  }

  /** The request has exactly one release label, and this is it. */
  predicate HasLabel(pr: PullRequest, name: string) {
    CountRelease(pr.labels) == 1 && name in pr.labels && "release::" <= name
  }

  /** The requests with this label, in their order. */
  function Labelled(prs: seq<PullRequest>, name: string): seq<PullRequest> {
    if prs == [] then [] else (if HasLabel(prs[0], name) then [prs[0]] else []) + Labelled(prs[1..], name)
  }

  lemma {:induction false} ReleaseLabelsAre(labels: seq<string>, name: string)
    ensures |ReleaseLabels(labels)| == CountRelease(labels)
    ensures name in ReleaseLabels(labels) <==> name in labels && "release::" <= name
  {
    if labels != [] {
      ReleaseLabelsAre(labels[1..], name);
      assert labels == [labels[0]] + labels[1..];
    }
  }

  lemma OneReleaseLabel(pr: PullRequest, name: string)
    ensures ReleaseLabels(pr.labels) == [name] <==> HasLabel(pr, name)
  {
    ReleaseLabelsAre(pr.labels, name);
    var labels := ReleaseLabels(pr.labels);
    assert |labels| == 1 ==> labels == [labels[0]];
    assert labels == [name] ==> name in labels;
  }

  /** The label of each kind. */
  lemma KindByLabel(pr: PullRequest)
    ensures Classify(pr) == Ok(Enhancements) <==> HasLabel(pr, "release::enhancements")
    ensures Classify(pr) == Ok(BugFixes) <==> HasLabel(pr, "release::bug_fixes")
    ensures Classify(pr) == Ok(CiDocs) <==> HasLabel(pr, "release::ci_docs")
    ensures Classify(pr) == Ok(Maintenance) <==> HasLabel(pr, "release::maintenance")
  {
    forall kind
      ensures Classify(pr) == Ok(kind) <==> HasLabel(pr, LabelOf(kind))
    {
      ClassifiedByLabel(pr, kind);
      OneReleaseLabel(pr, LabelOf(kind));
    }
    assert Classify(pr) == Ok(Enhancements) <==> HasLabel(pr, LabelOf(Enhancements));
    assert Classify(pr) == Ok(BugFixes) <==> HasLabel(pr, LabelOf(BugFixes));
    assert Classify(pr) == Ok(CiDocs) <==> HasLabel(pr, LabelOf(CiDocs));
    assert Classify(pr) == Ok(Maintenance) <==> HasLabel(pr, LabelOf(Maintenance));
  }

  /** The complaints: no release label, more than one and how many, or one that is not known. */
  lemma ComplaintsAre(pr: PullRequest)
    ensures match Classify(pr)
            case Err(NoLabel) => CountRelease(pr.labels) == 0
            case Err(ManyLabels(n)) => n == CountRelease(pr.labels) > 1
            case Err(UnknownLabel(name)) =>
              HasLabel(pr, name) && name !in {"release::enhancements", "release::bug_fixes", "release::ci_docs",
                                              "release::maintenance"}
            case Ok(_) => CountRelease(pr.labels) == 1
  {
    var labels := ReleaseLabels(pr.labels);
    ReleaseLabelsAre(pr.labels, if |labels| == 1 then labels[0] else "");
  }

  lemma {:induction false} ListsAreLabelled(prs: seq<PullRequest>)
    ensures OfKind(prs, Enhancements) == Labelled(prs, "release::enhancements")
    ensures OfKind(prs, BugFixes) == Labelled(prs, "release::bug_fixes")
    ensures OfKind(prs, CiDocs) == Labelled(prs, "release::ci_docs")
    ensures OfKind(prs, Maintenance) == Labelled(prs, "release::maintenance")
  {
    if prs != [] {
      KindByLabel(prs[0]);
      ListsAreLabelled(prs[1..]);
    }
  }

  // ---------- the headings of a release ----------

  /** A list under its heading; an empty list has none. */
  function Shown(heading: string, prs: seq<PullRequest>): seq<(string, seq<PullRequest>)> {
    if prs == [] then [] else [(heading, prs)]
  }

  /** What a release should show: four headings in this order, each over the requests with its label. */
  function ShownOf(prs: seq<PullRequest>): seq<(string, seq<PullRequest>)> {
    Shown("Enhancements:", Labelled(prs, "release::enhancements"))
    + Shown("Bug fixes:", Labelled(prs, "release::bug_fixes"))
    + Shown("CI fixes and doc:", Labelled(prs, "release::ci_docs"))
    + Shown("Maintenance:", Labelled(prs, "release::maintenance"))
  }

  function Texts(prs: seq<PullRequest>): seq<string> {
    seq(|prs|, i requires 0 <= i < |prs| => Strip(Description(prs[i])))
  }

  /** The sections show these requests: the same headings, and below each the same texts, in order. */
  predicate Shows(sections: seq<Block>, shown: seq<(string, seq<PullRequest>)>) {
    && |sections| == |shown|
    && forall i :: 0 <= i < |sections| ==>
         && Strip(sections[i].text) == shown[i].0
         && |sections[i].items| == |shown[i].1|
         && forall k :: 0 <= k < |sections[i].items| ==> sections[i].items[k].text == Texts(shown[i].1)[k]
  }

  lemma {:induction false} EntriesShow(ts: seq<Tagged>)
    ensures |Entries(ts)| == |Requests(ts)| == |ts|
    ensures forall k :: 0 <= k < |ts| ==> Entries(ts)[k].text == Strip(Description(Requests(ts)[k]))
  {
    if ts != [] {
      EntriesShow(ts[1..]);
    }
  }

  lemma CategoryShows(c: Category)
    requires HeadingName(c.name)
    ensures Shows(MaybeBlock(c), Shown(c.name + ":", Requests(c.items)))
  {
    EntriesShow(c.items);
    HeadingStripped(c.name);
  }

  lemma ShowsConcat(a: seq<Block>, b: seq<Block>, x: seq<(string, seq<PullRequest>)>,
                    y: seq<(string, seq<PullRequest>)>)
    requires Shows(a, x) && Shows(b, y)
    ensures Shows(a + b, x + y)
  {
  }

  /** The four categories, for any names. */
  lemma FourShow(cs: seq<Category>, a: Named, b: Named, c: Named, d: Named)
    requires NamedOf(cs) == [a, b, c, d]
    requires HeadingName(a.name) && HeadingName(b.name) && HeadingName(c.name) && HeadingName(d.name)
    ensures Shows(BlocksOf(cs), Shown(a.name + ":", a.prs) + Shown(b.name + ":", b.prs)
                                + Shown(c.name + ":", c.prs) + Shown(d.name + ":", d.prs))
  {
    FourCategories(cs, [a, b, c, d]);
    CategoryShows(cs[0]);
    CategoryShows(cs[1]);
    CategoryShows(cs[2]);
    CategoryShows(cs[3]);
    ShowsConcat(MaybeBlock(cs[0]), MaybeBlock(cs[1]), Shown(a.name + ":", a.prs), Shown(b.name + ":", b.prs));
    ShowsConcat(MaybeBlock(cs[0]) + MaybeBlock(cs[1]), MaybeBlock(cs[2]),
                Shown(a.name + ":", a.prs) + Shown(b.name + ":", b.prs), Shown(c.name + ":", c.prs));
    ShowsConcat(MaybeBlock(cs[0]) + MaybeBlock(cs[1]) + MaybeBlock(cs[2]), MaybeBlock(cs[3]),
                Shown(a.name + ":", a.prs) + Shown(b.name + ":", b.prs) + Shown(c.name + ":", c.prs),
                Shown(d.name + ":", d.prs));
  }

  lemma FourCategories(cs: seq<Category>, named: seq<Named>)
    requires NamedOf(cs) == named && |named| == 4
    ensures |cs| == 4 && forall i :: 0 <= i < 4 ==> named[i] == Named(cs[i].name, Requests(cs[i].items))
    ensures BlocksOf(cs) == MaybeBlock(cs[0]) + MaybeBlock(cs[1]) + MaybeBlock(cs[2]) + MaybeBlock(cs[3])
  {
    NamedAt(cs);
    BlocksOfFour(cs);
  }

  lemma {:induction false} NamedAt(cs: seq<Category>)
    ensures |NamedOf(cs)| == |cs|
    ensures forall i :: 0 <= i < |cs| ==> NamedOf(cs)[i] == Named(cs[i].name, Requests(cs[i].items))
  {
    if cs != [] {
      NamedAt(cs[1..]);
    }
  }

  lemma BlocksCons(cs: seq<Category>, i: nat)
    requires i < |cs|
    ensures BlocksOf(cs[i..]) == MaybeBlock(cs[i]) + BlocksOf(cs[i + 1..])
  {
    assert cs[i..][1..] == cs[i + 1..];
  }

  lemma LastTwo(cs: seq<Category>)
    requires |cs| == 4
    ensures BlocksOf(cs[2..]) == MaybeBlock(cs[2]) + MaybeBlock(cs[3])
  {
    assert cs[4..] == [];
    BlocksCons(cs, 3);
    BlocksCons(cs, 2);
  }

  lemma BlocksOfFour(cs: seq<Category>)
    requires |cs| == 4
    ensures BlocksOf(cs) == MaybeBlock(cs[0]) + MaybeBlock(cs[1]) + MaybeBlock(cs[2]) + MaybeBlock(cs[3])
  {
    assert cs[0..] == cs;
    LastTwo(cs);
    BlocksCons(cs, 1);
    BlocksCons(cs, 0);
    Regroup4(MaybeBlock(cs[0]), MaybeBlock(cs[1]), MaybeBlock(cs[2]), MaybeBlock(cs[3]));
  }

  lemma HeadingTexts()
    ensures "Enhancements" + ":" == "Enhancements:" && "Bug fixes" + ":" == "Bug fixes:"
    ensures "CI fixes and doc" + ":" == "CI fixes and doc:" && "Maintenance" + ":" == "Maintenance:"
  {
  }

  lemma PrintedShows(cs: seq<Category>, prs: seq<PullRequest>)
    requires PrintsAs(cs, Sorted(prs))
    ensures Shows(BlocksOf(cs), ShownOf(prs))
  {
    ListsAreLabelled(prs);
    FourHeadings();
    HeadingTexts();
    var s := Sorted(prs);
    FourShow(cs, Named("Enhancements", s.enhancements), Named("Bug fixes", s.bugFixes),
             Named("CI fixes and doc", s.ciDocs), Named("Maintenance", s.maintenance));
  }

  predicate SingleLinesOf(prs: seq<PullRequest>) {
    forall pr <- prs :: SingleLine(pr)
  }

  lemma SortedSingleLines(prs: seq<PullRequest>)
    requires SingleLinesOf(prs)
    ensures AllSingleLines(Sorted(prs))
  {
    forall kind, pr | pr in OfKind(prs, kind)
      ensures SingleLine(pr)
    {
      ListedByLabel(prs, kind, pr);
    }
  }

  /** From the labels to the headings: after an update, the release that is read back has a section for
      each of the four labels that some request has, in the order enhancements, bug fixes, CI fixes and
      doc, maintenance, and in each section exactly the requests with its label, in their order. */
  lemma ReleaseShowsLabels(date: string, version: string, prs: seq<PullRequest>, cs: seq<Category>, older: string)
    requires '\n' !in date && Readable(version) && VersionScheme.Parse(version).Ok? && Unseen(older)
    requires PrintsAs(cs, Sorted(prs)) && SingleLinesOf(prs)
    ensures match ReadNotes(ReleaseText(date, version, cs) + older)
            case Err(_) => false
            case Ok(notes) =>
              && notes.version.name == version && notes.projects == ["libmamba", "micromamba", "libmambapy"]
              && Shows(notes.sections, ShownOf(prs))
  {
    SortedSingleLines(prs);
    PrintedLists(cs, Sorted(prs));
    RoundTrip(date, version, cs, older);
    PrintedShows(cs, prs);
  }

  // ---------- one request ----------

  lemma {:induction false} LabelledAre(prs: seq<PullRequest>, name: string, pr: PullRequest)
    ensures pr in Labelled(prs, name) <==> pr in prs && HasLabel(pr, name)
  {
    if prs != [] {
      assert prs == [prs[0]] + prs[1..];
      LabelledAre(prs[1..], name, pr);
    }
  }

  /** An item with the text of the request stands under this heading. */
  predicate StandsUnder(sections: seq<Block>, heading: string, pr: PullRequest) {
    exists i, k ::
      0 <= i < |sections| && 0 <= k < |sections[i].items|
      && Strip(sections[i].text) == heading && sections[i].items[k].text == Strip(Description(pr))
  }

  /** No other request has the same text. */
  predicate OwnText(prs: seq<PullRequest>, pr: PullRequest) {
    forall other <- prs :: Strip(Description(other)) == Strip(Description(pr)) ==> other == pr
  }

  lemma TextAt(prs: seq<PullRequest>, listed: seq<PullRequest>, pr: PullRequest)
    requires OwnText(prs, pr) && forall x <- listed :: x in prs
    ensures (exists k :: 0 <= k < |listed| && Texts(listed)[k] == Strip(Description(pr))) <==> pr in listed
  {
    if k :| 0 <= k < |listed| && Texts(listed)[k] == Strip(Description(pr)) {
      assert listed[k] in listed;
    }
    if pr in listed {
      var k :| 0 <= k < |listed| && listed[k] == pr;
      assert Texts(listed)[k] == Strip(Description(pr));
    }
  }

  /** Under which of some headings, all different, a request stands. */
  lemma UnderHeading(sections: seq<Block>, shown: seq<(string, seq<PullRequest>)>, prs: seq<PullRequest>,
                     heading: string, pr: PullRequest)
    requires Shows(sections, shown) && OwnText(prs, pr)
    requires forall s <- shown, x <- s.1 :: x in prs
    ensures StandsUnder(sections, heading, pr) <==> exists s <- shown :: s.0 == heading && pr in s.1
  {
    if i, k :| 0 <= i < |sections| && 0 <= k < |sections[i].items|
               && Strip(sections[i].text) == heading && sections[i].items[k].text == Strip(Description(pr)) {
      assert shown[i] in shown;
      assert Texts(shown[i].1)[k] == Strip(Description(pr));
      TextAt(prs, shown[i].1, pr);
    }
    if s :| s in shown && s.0 == heading && pr in s.1 {
      var i :| 0 <= i < |shown| && shown[i] == s;
      var k :| 0 <= k < |s.1| && s.1[k] == pr;
      assert sections[i].items[k].text == Texts(s.1)[k];
    }
  }

  lemma ShownOfMembers(prs: seq<PullRequest>, heading: string, pr: PullRequest)
    ensures (exists s <- ShownOf(prs) :: s.0 == heading && pr in s.1)
            <==> || (heading == "Enhancements:" && pr in Labelled(prs, "release::enhancements"))
                 || (heading == "Bug fixes:" && pr in Labelled(prs, "release::bug_fixes"))
                 || (heading == "CI fixes and doc:" && pr in Labelled(prs, "release::ci_docs"))
                 || (heading == "Maintenance:" && pr in Labelled(prs, "release::maintenance"))
  {
    FourMembers(Shown("Enhancements:", Labelled(prs, "release::enhancements")),
                Shown("Bug fixes:", Labelled(prs, "release::bug_fixes")),
                Shown("CI fixes and doc:", Labelled(prs, "release::ci_docs")),
                Shown("Maintenance:", Labelled(prs, "release::maintenance")), heading, pr);
  }

  predicate IsUnder(shown: seq<(string, seq<PullRequest>)>, heading: string, pr: PullRequest) {
    exists s <- shown :: s.0 == heading && pr in s.1
  }

  lemma FourMembers(a: seq<(string, seq<PullRequest>)>, b: seq<(string, seq<PullRequest>)>,
                    c: seq<(string, seq<PullRequest>)>, d: seq<(string, seq<PullRequest>)>,
                    heading: string, pr: PullRequest)
    ensures IsUnder(a + b + c + d, heading, pr)
            <==> || IsUnder(a, heading, pr) || IsUnder(b, heading, pr)
                 || IsUnder(c, heading, pr) || IsUnder(d, heading, pr)
  {
    assert forall s :: s in a + b + c + d <==> s in a || s in b || s in c || s in d;
  }

  /** A request stands under the heading of its label and under no other: after an update and a reading,
      under "Enhancements:" if and only if it is one of the requests and its one release label is
      `release::enhancements`, and likewise for the other three. */
  lemma RequestUnderItsHeading(date: string, version: string, prs: seq<PullRequest>, cs: seq<Category>, older: string,
                               heading: string, pr: PullRequest)
    requires '\n' !in date && Readable(version) && VersionScheme.Parse(version).Ok? && Unseen(older)
    requires PrintsAs(cs, Sorted(prs)) && SingleLinesOf(prs) && OwnText(prs, pr)
    ensures match ReadNotes(ReleaseText(date, version, cs) + older)
            case Err(_) => false
            case Ok(notes) =>
              StandsUnder(notes.sections, heading, pr)
              <==> && pr in prs
                   && (|| (heading == "Enhancements:" && HasLabel(pr, "release::enhancements"))
                       || (heading == "Bug fixes:" && HasLabel(pr, "release::bug_fixes"))
                       || (heading == "CI fixes and doc:" && HasLabel(pr, "release::ci_docs"))
                       || (heading == "Maintenance:" && HasLabel(pr, "release::maintenance")))
  {
    ReleaseShowsLabels(date, version, prs, cs, older);
    var sections := ReadNotes(ReleaseText(date, version, cs) + older).value.sections;
    StandsByLabel(sections, prs, heading, pr);
  }

  lemma StandsByLabel(sections: seq<Block>, prs: seq<PullRequest>, heading: string, pr: PullRequest)
    requires Shows(sections, ShownOf(prs)) && OwnText(prs, pr)
    ensures StandsUnder(sections, heading, pr)
            <==> && pr in prs
                 && (|| (heading == "Enhancements:" && HasLabel(pr, "release::enhancements"))
                     || (heading == "Bug fixes:" && HasLabel(pr, "release::bug_fixes"))
                     || (heading == "CI fixes and doc:" && HasLabel(pr, "release::ci_docs"))
                     || (heading == "Maintenance:" && HasLabel(pr, "release::maintenance")))
  {
    forall s <- ShownOf(prs), x <- s.1
      ensures x in prs
    {
      ShownOfMembers(prs, s.0, x);
      LabelledAre(prs, "release::enhancements", x);
      LabelledAre(prs, "release::bug_fixes", x);
      LabelledAre(prs, "release::ci_docs", x);
      LabelledAre(prs, "release::maintenance", x);
    }
    UnderHeading(sections, ShownOf(prs), prs, heading, pr);
    ShownOfMembers(prs, heading, pr);
    LabelledAre(prs, "release::enhancements", pr);
    LabelledAre(prs, "release::bug_fixes", pr);
    LabelledAre(prs, "release::ci_docs", pr);
    LabelledAre(prs, "release::maintenance", pr);
  }

  // ---------- each package's share ----------

  /** What a package should be told of these requests: for each of the four labels the requests that
      concern it, under their heading. */
  function ShareOf(prs: seq<PullRequest>, pkg: string): seq<string> {
    Share([Named("Enhancements", Labelled(prs, "release::enhancements")),
           Named("Bug fixes", Labelled(prs, "release::bug_fixes")),
           Named("CI fixes and doc", Labelled(prs, "release::ci_docs")),
           Named("Maintenance", Labelled(prs, "release::maintenance"))], pkg, true)
  }

  /** From the pull requests to the changelogs of the packages: after a release is written on top of an
      older changelog, reading it yields exactly the three packages, and each package is given exactly
      the requests that concern it, under the headings of their labels. */
  lemma EveryPackageGetsItsShare(date: string, version: string, prs: seq<PullRequest>, cs: seq<Category>, older: string)
    requires '\n' !in date && Readable(version) && VersionScheme.Parse(version).Ok? && Unseen(older)
    requires PrintsAs(cs, Sorted(prs)) && SingleLinesOf(prs)
    ensures match ReadNotes(ReleaseText(date, version, cs) + older)
            case Err(_) => false
            case Ok(notes) =>
              forall pkg <- ["libmamba", "libmambapy", "micromamba"] ::
                Changes(notes.sections, pkg) == ShareOf(prs, pkg)
  {
    SortedSingleLines(prs);
    EveryPackageIsGiven(date, version, Sorted(prs), cs, older);
    ListsAreLabelled(prs);
  }

  /** From a single request to the changelogs: the line of a request is among the changes of a package if
      and only if it is one of the requests and concerns the package (unless another request has the
      very same line). */
  lemma LineReachesPackage(date: string, version: string, prs: seq<PullRequest>, cs: seq<Category>, older: string,
                           pr: PullRequest, pkg: string)
    requires '\n' !in date && Readable(version) && VersionScheme.Parse(version).Ok? && Unseen(older)
    requires PrintsAs(cs, Sorted(prs)) && Classified(prs) && SingleLinesOf(prs) && OwnText(prs, pr)
    requires pkg in ["libmamba", "libmambapy", "micromamba"]
    ensures match ReadNotes(ReleaseText(date, version, cs) + older)
            case Err(_) => false
            case Ok(notes) =>
              "- " + Strip(Description(pr)) in Changes(notes.sections, pkg) <==> pr in prs && Concerns(pr, pkg)
  {
    SortedSingleLines(prs);
    EveryPackageIsGiven(date, version, Sorted(prs), cs, older);
    ListedSomewhere(prs, pr);
    LineIsOwn(prs, pr);
    ListsAreNamed(Sorted(prs));
    LineIsShared(NamedLists(Sorted(prs)), pkg, pr);
  }

  lemma ListedSomewhere(prs: seq<PullRequest>, pr: PullRequest)
    requires Classified(prs)
    ensures IsListed(NamedLists(Sorted(prs)), pr) <==> pr in prs
  {
    var lists := NamedLists(Sorted(prs));
    assert IsListed(lists, pr) <==>
           pr in lists[0].prs || pr in lists[1].prs || pr in lists[2].prs || pr in lists[3].prs;
    ListedByLabel(prs, Enhancements, pr);
    ListedByLabel(prs, BugFixes, pr);
    ListedByLabel(prs, CiDocs, pr);
    ListedByLabel(prs, Maintenance, pr);
    if pr in prs {
      var kind := Classify(pr).value;
      ClassifiedByLabel(pr, kind);
      ListedByLabel(prs, kind, pr);
    }
  }

  lemma LineIsOwn(prs: seq<PullRequest>, pr: PullRequest)
    requires OwnText(prs, pr)
    ensures OwnLine(NamedLists(Sorted(prs)), pr)
  {
    forall l <- NamedLists(Sorted(prs)), other <- l.prs | LineOf(other) == LineOf(pr)
      ensures other == pr
    {
      ListedByLabel(prs, Enhancements, other);
      ListedByLabel(prs, BugFixes, other);
      ListedByLabel(prs, CiDocs, other);
      ListedByLabel(prs, Maintenance, other);
      assert LineOf(other)[2..] == LineOf(pr)[2..];
    }
  }
}
