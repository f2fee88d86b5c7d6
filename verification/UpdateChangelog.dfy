/** The script that writes a new release on top of the changelog (`update_changelog.py`). */
module UpdateChangelog {
  import opened Wrappers
  import opened Sequences
  import opened PyText
  import opened ChangelogModel
  import VersionScheme

  // ---------- which packages a pull request concerns ----------

  const PACKAGES: seq<string> := ["libmamba", "libmambapy", "micromamba"]

  predicate TouchesDirectory(files: seq<string>, pkg: string) {
    exists f <- files :: pkg + "/" <= f
  }

  ghost function Concerned(files: seq<string>): set<string> {
    set pkg | pkg in PACKAGES && TouchesDirectory(files, pkg)
  }

  lemma ConcernedAppend(files: seq<string>, f: string)
    ensures Concerned(files + [f]) == Concerned(files) + set p | p in PACKAGES && p + "/" <= f
  {
    forall p | p in PACKAGES
      ensures TouchesDirectory(files + [f], p) <==> TouchesDirectory(files, p) || p + "/" <= f
    {
      if p + "/" <= f {
        assert f in files + [f];
      }
      if TouchesDirectory(files, p) {
        var g :| g in files && p + "/" <= g;
        assert g in files + [f];
      }
    }
  }

  function Elements(s: seq<string>): set<string> {
    set x | x in s
  }

  /** The tags an item may be printed with. The packages come out of a set, in no fixed order. */
  ghost predicate ValidTags(pr: PullRequest, tags: seq<string>) {
    var pkgs := Concerned(pr.files);
    if pkgs == {} || pkgs == Elements(PACKAGES) then tags == [ALL]
    else NoDuplicates(tags) && Elements(tags) == pkgs
  }

  /** A pull request with the tags chosen for it. */
  datatype Tagged = Tagged(pr: PullRequest, tags: seq<string>)

  ghost predicate ValidTagged(ts: seq<Tagged>) {
    forall t <- ts :: ValidTags(t.pr, t.tags)
  }

  function Requests(ts: seq<Tagged>): seq<PullRequest> {
    if ts == [] then [] else [ts[0].pr] + Requests(ts[1..])
  }

  lemma {:induction false} RequestsAppend(ts: seq<Tagged>, t: Tagged)
    ensures Requests(ts + [t]) == Requests(ts) + [t.pr]
  {
    if ts != [] {
      assert (ts + [t])[1..] == ts[1..] + [t];
      RequestsAppend(ts[1..], t);
    }
  }

  // ---------- the text of a release ----------

  function ItemLine(t: Tagged): string {
    "- [" + Join(", ", t.tags) + "] " + Description(t.pr)
  }

  function ItemText(t: Tagged): string {
    ItemLine(t) + "\n"
  }

  function ItemsText(ts: seq<Tagged>): string {
    if ts == [] then "" else ItemText(ts[0]) + ItemsText(ts[1..])
  }

  lemma {:induction false} ItemsTextAppend(ts: seq<Tagged>, t: Tagged)
    ensures ItemsText(ts + [t]) == ItemsText(ts) + ItemText(t)
  {
    if ts != [] {
      assert (ts + [t])[1..] == ts[1..] + [t];
      ItemsTextAppend(ts[1..], t);
    }
  }

  /** A named list of pull requests; nothing is printed for an empty one. */
  datatype Category = Category(name: string, items: seq<Tagged>)

  function HeadingText(name: string): string {
    "\n" + name + ":\n\n"
  }

  function CategoryText(c: Category): string {
    HeadingText(c.name) + ItemsText(c.items)
  }

  function MaybeText(c: Category): string {
    if c.items == [] then "" else CategoryText(c)
  }

  function CategoriesText(cs: seq<Category>): string {
    if cs == [] then ""
    else MaybeText(cs[0]) + CategoriesText(cs[1..])
  }

  const PROJECTS := "libmamba, mamba, micromamba, libmambapy"

  function ReleaseLine(version: string): string {
    "Release: " + version + " (" + PROJECTS + ")"
  }

  function DateText(date: string): string {
    H2 + date + "\n"
  }

  function VersionText(version: string): string {
    "\n" + ReleaseLine(version) + "\n"
  }

  function HeaderText(date: string, version: string): string {
    DateText(date) + VersionText(version)
  }

  function ReleaseText(date: string, version: string, cs: seq<Category>): string {
    HeaderText(date, version) + CategoriesText(cs) + "\n"
  }

  // ---------- the open file ----------

  /** A file whose beginning has been written over: writing never truncates. */
  function Overwritten(text: string, s: string): string {
    s + (if |s| <= |text| then text[|s|..] else "")
  }

  lemma OverwrittenTwice(text: string, s: string, t: string)
    ensures var before := Overwritten(text, s);
            Overwritten(text, s + t) == before[..|s|] + t + (if |s| + |t| <= |before| then before[|s| + |t|..] else "")
  {
  }

  /** A file opened for reading and writing (mode `r+`). It was rewound when it held `base`, and
      `written` has been written since. */
  class OpenFile {
    var text: string
    var position: nat
    ghost var base: string
    ghost var written: string

    ghost predicate Valid()
      reads this
    {
      position == |written| && text == Overwritten(base, written)
    }

    constructor (contents: string)
      ensures Valid() && text == base == contents && written == ""
    {
      text, position := contents, 0;
      base, written := contents, "";
    }

    method Read() returns (s: string)
      requires Valid() && position == 0
      modifies this
      ensures s == text == old(text) && position == |text|
    {
      s := text[position..];
      position := |text|;
    }

    method Rewind()
      modifies this
      ensures Valid() && text == base == old(text) && written == ""
    {
      position := 0;
      base, written := text, "";
    }

    method Write(s: string)
      requires Valid()
      modifies this
      ensures Valid() && base == old(base) && written == old(written) + s
    {
      OverwrittenTwice(base, written, s);
      text := text[..position] + s + (if position + |s| <= |text| then text[position + |s|..] else "");
      position := position + |s|;
      written := written + s;
    }
  }

  // ---------- appending a category ----------

  /** Collect the packages that the files of a pull request touch. */
  method ConcernedPackages(pr: PullRequest) returns (pkgs: set<string>)
    ensures pkgs == Concerned(pr.files)
  {
    pkgs := {};
    for i := 0 to |pr.files|
      invariant pkgs == Concerned(pr.files[..i])
    {
      var f := pr.files[i];
      for j := 0 to |PACKAGES|
        invariant pkgs == Concerned(pr.files[..i]) + set p | p in PACKAGES[..j] && p + "/" <= f
      {
        if PACKAGES[j] + "/" <= f {
          pkgs := pkgs + {PACKAGES[j]};
        }
        assert PACKAGES[..j + 1] == PACKAGES[..j] + [PACKAGES[j]];
      }
      assert PACKAGES[..|PACKAGES|] == PACKAGES;
      ConcernedAppend(pr.files[..i], f);
      assert pr.files[..i + 1] == pr.files[..i] + [f];
    }
    assert pr.files[..|pr.files|] == pr.files;
  }

  /** List the elements of a set, in some order. */
  method Enumerate(s: set<string>) returns (xs: seq<string>)
    ensures NoDuplicates(xs) && Elements(xs) == s
  {
    xs := [];
    var rest := s;
    while rest != {}
      invariant NoDuplicates(xs)
      invariant rest <= s && Elements(xs) == s - rest
      decreases rest
    {
      var x :| x in rest;
      assert x !in Elements(xs);
      assert Elements(xs + [x]) == Elements(xs) + {x};
      rest := rest - {x};
      xs := xs + [x];
    }
  }

  /** The tags printed for a pull request. */
  method ChooseTags(pr: PullRequest) returns (tags: seq<string>)
    ensures ValidTags(pr, tags)
  {
    var pkgs := ConcernedPackages(pr);
    if pkgs == Elements(PACKAGES) || pkgs == {} {
      tags := [ALL];
    } else {
      tags := Enumerate(pkgs);
    }
  }

  method WriteItem(pr: PullRequest, file: OpenFile) returns (ghost t: Tagged)
    requires file.Valid()
    modifies file
    ensures file.Valid() && file.base == old(file.base)
    ensures t.pr == pr && ValidTags(pr, t.tags)
    ensures file.written == old(file.written) + ItemText(t)
  {
    var tags := ChooseTags(pr);
    t := Tagged(pr, tags);
    file.Write("- [" + Join(", ", tags) + "] " + Description(pr) + "\n");
  }

  lemma OneMoreItem(above: string, items: seq<Tagged>, t: Tagged)
    requires ValidTagged(items) && ValidTags(t.pr, t.tags)
    ensures ValidTagged(items + [t])
    ensures above + ItemsText(items) + ItemText(t) == above + ItemsText(items + [t])
    ensures Requests(items + [t]) == Requests(items) + [t.pr]
  {
    Regroup(above, ItemsText(items), ItemText(t));
    ItemsTextAppend(items, t);
    RequestsAppend(items, t);
  }

  /** One item more, behind those that are written. */
  method WriteNext(pr: PullRequest, file: OpenFile, ghost above: string, ghost items: seq<Tagged>)
      returns (ghost items': seq<Tagged>)
    requires file.Valid() && ValidTagged(items) && file.written == above + ItemsText(items)
    modifies file
    ensures file.Valid() && file.base == old(file.base)
    ensures ValidTagged(items') && Requests(items') == Requests(items) + [pr]
    ensures file.written == above + ItemsText(items')
  {
    ghost var t := WriteItem(pr, file);
    OneMoreItem(above, items, t);
    items' := items + [t];
  }

  /** Write the items one by one. The details of a request are fetched just before it is written;
      `answered` is how many of the coming requests GitHub answers before a call fails, and the
      failure ends the script. */
  method WriteItems(prs: seq<PullRequest>, file: OpenFile, answered: nat) returns (ok: bool, ghost items: seq<Tagged>)
    requires file.Valid()
    modifies file
    ensures file.Valid() && file.base == old(file.base)
    ensures ok <==> |prs| <= answered
    ensures ValidTagged(items) && Requests(items) == (if ok then prs else prs[..answered])
    ensures file.written == old(file.written) + ItemsText(items)
  {
    ghost var above := file.written;
    items := [];
    assert above + "" == above;
    for i := 0 to |prs|
      invariant file.Valid() && file.base == old(file.base)
      invariant i <= answered && ValidTagged(items) && Requests(items) == prs[..i]
      invariant file.written == above + ItemsText(items)
    {
      if i == answered {
        return false, items;
      }
      items := WriteNext(prs[i], file, above, items);
      assert prs[..i + 1] == prs[..i] + [prs[i]];
    }
    return true, items;
  }

  method AppendToFile(name: string, prs: seq<PullRequest>, file: OpenFile, answered: nat)
      returns (ok: bool, ghost items: seq<Tagged>)
    requires file.Valid()
    modifies file
    ensures file.Valid() && file.base == old(file.base)
    ensures ok <==> |prs| <= answered
    ensures ValidTagged(items) && Requests(items) == (if ok then prs else prs[..answered])
    ensures file.written == old(file.written) + CategoryText(Category(name, items))
  {
    ghost var above := file.written;
    file.Write("\n" + name + ":\n\n");
    ok, items := WriteItems(prs, file, answered);
    Regroup(above, HeadingText(name), ItemsText(items));
  }

  // ---------- sorting pull requests by label ----------

  datatype Kind = Enhancements | BugFixes | CiDocs | Maintenance

  datatype LabelError = NoLabel | ManyLabels(count: nat) | UnknownLabel(name: string)

  function ReleaseLabels(labels: seq<string>): seq<string> {
    if labels == [] then []
    else (if "release::" <= labels[0] then [labels[0]] else []) + ReleaseLabels(labels[1..])
  }

  function KindOf(name: string): Result<Kind, LabelError> {
    if name == "release::enhancements" then Ok(Enhancements)
    else if name == "release::bug_fixes" then Ok(BugFixes)
    else if name == "release::ci_docs" then Ok(CiDocs)
    else if name == "release::maintenance" then Ok(Maintenance)
    else Err(UnknownLabel(name))
  }

  /** A pull request carries exactly one release label, of a known kind. */
  function Classify(pr: PullRequest): Result<Kind, LabelError> {
    var labels := ReleaseLabels(pr.labels);
    if |labels| == 0 then Err(NoLabel)
    else if |labels| > 1 then Err(ManyLabels(|labels|))
    else KindOf(labels[0])
  }

  predicate Classified(prs: seq<PullRequest>) {
    forall pr <- prs :: Classify(pr).Ok?
  }

  function IfOfKind(pr: PullRequest, kind: Kind): seq<PullRequest> {
    if Classify(pr) == Ok(kind) then [pr] else []
  }

  function OfKind(prs: seq<PullRequest>, kind: Kind): seq<PullRequest> {
    if prs == [] then []
    else IfOfKind(prs[0], kind) + OfKind(prs[1..], kind)
  }

  lemma {:induction false} OfKindAppend(prs: seq<PullRequest>, pr: PullRequest, kind: Kind)
    ensures OfKind(prs + [pr], kind) == OfKind(prs, kind) + IfOfKind(pr, kind)
  {
    if prs == [] {
      assert prs + [pr] == [pr];
    } else {
      assert (prs + [pr])[1..] == prs[1..] + [pr];
      OfKindAppend(prs[1..], pr, kind);
    }
  }

  lemma {:induction false} ReleaseLabelsAppend(labels: seq<string>, lab: string)
    ensures ReleaseLabels(labels + [lab])
         == ReleaseLabels(labels) + (if "release::" <= lab then [lab] else [])
  {
    if labels != [] {
      assert (labels + [lab])[1..] == labels[1..] + [lab];
      ReleaseLabelsAppend(labels[1..], lab);
    }
  }

  function LabelOf(kind: Kind): string {
    match kind
    case Enhancements => "release::enhancements"
    case BugFixes => "release::bug_fixes"
    case CiDocs => "release::ci_docs"
    case Maintenance => "release::maintenance"
  }

  /** A pull request is in a list if and only if the list's label is its one release label. */
  lemma {:induction false} ListedByLabel(prs: seq<PullRequest>, kind: Kind, pr: PullRequest)
    ensures pr in OfKind(prs, kind) <==> pr in prs && ReleaseLabels(pr.labels) == [LabelOf(kind)]
  {
    ClassifiedByLabel(pr, kind);
    if prs != [] {
      assert prs == [prs[0]] + prs[1..];
      ListedByLabel(prs[1..], kind, pr);
    }
  }

  lemma ClassifiedByLabel(pr: PullRequest, kind: Kind)
    ensures Classify(pr) == Ok(kind) <==> ReleaseLabels(pr.labels) == [LabelOf(kind)]
  {
  }

  lemma CountConcat(a: seq<PullRequest>, b: seq<PullRequest>, pr: PullRequest)
    ensures multiset(a + b)[pr] == multiset(a)[pr] + multiset(b)[pr]
  {
  }

  lemma {:induction false} CountOfKind(prs: seq<PullRequest>, kind: Kind, pr: PullRequest)
    ensures multiset(OfKind(prs, kind))[pr] == if Classify(pr) == Ok(kind) then multiset(prs)[pr] else 0
  {
    if prs != [] {
      var first, rest := prs[0], prs[1..];
      CountOfKind(rest, kind, pr);
      CountConcat(IfOfKind(first, kind), OfKind(rest, kind), pr);
      CountConcat([first], rest, pr);
      assert prs == [first] + rest;
    }
  }

  lemma ListedOnce(prs: seq<PullRequest>, pr: PullRequest)
    requires Classified(prs)
    ensures multiset(OfKind(prs, Enhancements))[pr] + multiset(OfKind(prs, BugFixes))[pr]
            + multiset(OfKind(prs, CiDocs))[pr] + multiset(OfKind(prs, Maintenance))[pr] == multiset(prs)[pr]
  {
    CountOfKind(prs, Enhancements, pr);
    CountOfKind(prs, BugFixes, pr);
    CountOfKind(prs, CiDocs, pr);
    CountOfKind(prs, Maintenance, pr);
    assert pr in multiset(prs) ==> pr in prs;
  }

  lemma SameMultiset(a: multiset<PullRequest>, b: multiset<PullRequest>, c: multiset<PullRequest>,
                     d: multiset<PullRequest>, all: multiset<PullRequest>)
    requires forall pr :: a[pr] + b[pr] + c[pr] + d[pr] == all[pr]
    ensures a + b + c + d == all
  {
  }

  /** No pull request is lost and none is listed twice. */
  lemma DispatchConserves(prs: seq<PullRequest>)
    requires Classified(prs)
    ensures multiset(OfKind(prs, Enhancements)) + multiset(OfKind(prs, BugFixes))
            + multiset(OfKind(prs, CiDocs)) + multiset(OfKind(prs, Maintenance)) == multiset(prs)
  {
    var a, b := multiset(OfKind(prs, Enhancements)), multiset(OfKind(prs, BugFixes));
    var c, d := multiset(OfKind(prs, CiDocs)), multiset(OfKind(prs, Maintenance));
    forall pr
      ensures a[pr] + b[pr] + c[pr] + d[pr] == multiset(prs)[pr]
    {
      ListedOnce(prs, pr);
    }
    SameMultiset(a, b, c, d, multiset(prs));
  }

  method ClassifyRequest(pr: PullRequest) returns (r: Result<Kind, LabelError>)
    ensures r == Classify(pr)
  {
    var count := 0;
    var last := "";
    for i := 0 to |pr.labels|
      invariant count == |ReleaseLabels(pr.labels[..i])|
      invariant count > 0 ==> last == ReleaseLabels(pr.labels[..i])[count - 1]
    {
      ReleaseLabelsAppend(pr.labels[..i], pr.labels[i]);
      assert pr.labels[..i + 1] == pr.labels[..i] + [pr.labels[i]];
      if "release::" <= pr.labels[i] {
        count := count + 1;
        last := pr.labels[i];
      }
    }
    assert pr.labels[..|pr.labels|] == pr.labels;
    if count == 0 {
      return Err(NoLabel);
    } else if count > 1 {
      return Err(ManyLabels(count));
    }
    r := KindOf(last);
  }

  datatype Lists = Lists(
    enhancements: seq<PullRequest>,
    bugFixes: seq<PullRequest>,
    ciDocs: seq<PullRequest>,
    maintenance: seq<PullRequest>)

  function Sorted(prs: seq<PullRequest>): Lists {
    Lists(OfKind(prs, Enhancements), OfKind(prs, BugFixes), OfKind(prs, CiDocs), OfKind(prs, Maintenance))
  }

  lemma SortedAppend(prs: seq<PullRequest>, pr: PullRequest, kind: Kind)
    requires Classify(pr) == Ok(kind)
    ensures var (s, t) := (Sorted(prs), Sorted(prs + [pr]));
            match kind
            case Enhancements => t == s.(enhancements := s.enhancements + [pr])
            case BugFixes => t == s.(bugFixes := s.bugFixes + [pr])
            case CiDocs => t == s.(ciDocs := s.ciDocs + [pr])
            case Maintenance => t == s.(maintenance := s.maintenance + [pr])
  {
    OfKindAppend(prs, pr, Enhancements);
    OfKindAppend(prs, pr, BugFixes);
    OfKindAppend(prs, pr, CiDocs);
    OfKindAppend(prs, pr, Maintenance);
  }

  /** The first pull request that cannot be classified stops the script. */
  method Dispatch(prs: seq<PullRequest>) returns (r: Result<Lists, (nat, LabelError)>)
    ensures match r
            case Ok(lists) => Classified(prs) && lists == Sorted(prs)
            case Err((i, e)) => i < |prs| && Classified(prs[..i]) && Classify(prs[i]) == Err(e)
  {
    var enhancements, bugFixes, ciDocs, maintenance := [], [], [], [];
    for i := 0 to |prs|
      invariant Classified(prs[..i])
      invariant Lists(enhancements, bugFixes, ciDocs, maintenance) == Sorted(prs[..i])
    {
      var kind := ClassifyRequest(prs[i]);
      if kind.Err? {
        return Err((i, kind.error));
      }
      SortedAppend(prs[..i], prs[i], kind.value);
      assert prs[..i + 1] == prs[..i] + [prs[i]];
      match kind.value
      case Enhancements => enhancements := enhancements + [prs[i]];
      case BugFixes => bugFixes := bugFixes + [prs[i]];
      case CiDocs => ciDocs := ciDocs + [prs[i]];
      case Maintenance => maintenance := maintenance + [prs[i]];
    }
    assert prs[..|prs|] == prs;
    r := Ok(Lists(enhancements, bugFixes, ciDocs, maintenance));
  }

  // ---------- the whole script ----------

  datatype UpdateError =
    | BadVersion(error: VersionScheme.VersionError)
    | BadLabels(index: nat, labelError: LabelError)
    | NoAnswer

  datatype Named = Named(name: string, prs: seq<PullRequest>)

  function NamedLists(lists: Lists): seq<Named> {
    [Named("Enhancements", lists.enhancements), Named("Bug fixes", lists.bugFixes),
     Named("CI fixes and doc", lists.ciDocs), Named("Maintenance", lists.maintenance)]
  }

  function NamedOf(cs: seq<Category>): seq<Named> {
    if cs == [] then [] else [Named(cs[0].name, Requests(cs[0].items))] + NamedOf(cs[1..])
  }

  lemma {:induction false} NamedOfAppend(cs: seq<Category>, c: Category)
    ensures NamedOf(cs + [c]) == NamedOf(cs) + [Named(c.name, Requests(c.items))]
    ensures |NamedOf(cs)| == |cs|
  {
    if cs == [] {
      assert [] + [c] == [c];
    } else {
      assert (cs + [c])[1..] == cs[1..] + [c];
      NamedOfAppend(cs[1..], c);
    }
  }

  ghost predicate AllTagged(cs: seq<Category>) {
    forall c <- cs :: ValidTagged(c.items)
  }

  /** The four lists as they are printed, for some choice of tags. */
  ghost predicate PrintsAs(cs: seq<Category>, lists: Lists) {
    NamedOf(cs) == NamedLists(lists) && AllTagged(cs)
  }

  function Total(lists: seq<Named>): nat {
    if lists == [] then 0 else |lists[0].prs| + Total(lists[1..])
  }

  lemma {:induction false} TotalAppend(lists: seq<Named>, l: Named)
    ensures Total(lists + [l]) == Total(lists) + |l.prs|
  {
    if lists == [] {
      assert [] + [l] == [l];
    } else {
      assert (lists + [l])[1..] == lists[1..] + [l];
      TotalAppend(lists[1..], l);
    }
  }

  /** What is printed of the lists when only `n` requests are answered: the first lists whole, and
      of the next one the requests up to the one that is not answered. */
  ghost predicate PrintsPart(cs: seq<Category>, cut: Category, lists: seq<Named>, n: nat) {
    && |cs| < |lists|
    && NamedOf(cs) == lists[..|cs|] && AllTagged(cs)
    && cut.name == lists[|cs|].name && ValidTagged(cut.items)
    && Total(lists[..|cs|]) <= n < Total(lists[..|cs|]) + |lists[|cs|].prs|
    && Requests(cut.items) == lists[|cs|].prs[..n - Total(lists[..|cs|])]
  }

  lemma {:induction false} CategoriesAppend(cs: seq<Category>, c: Category)
    ensures CategoriesText(cs + [c]) == CategoriesText(cs) + MaybeText(c)
  {
    if cs == [] {
      assert CategoriesText([c]) == MaybeText(c) + CategoriesText([]);
    } else {
      assert (cs + [c])[1..] == cs[1..] + [c];
      CategoriesAppend(cs[1..], c);
    }
  }

  /** The lists that are written, and how many answers are left for the others. */
  ghost predicate WrittenSoFar(cs: seq<Category>, lists: seq<Named>, answered: nat, left: nat) {
    && |cs| <= |lists|
    && NamedOf(cs) == lists[..|cs|] && AllTagged(cs)
    && left == answered - Total(lists[..|cs|])
  }

  lemma NextList(cs: seq<Category>, c: Category, lists: seq<Named>, answered: nat, left: nat)
    requires WrittenSoFar(cs, lists, answered, left) && |cs| < |lists|
    requires c.name == lists[|cs|].name && ValidTagged(c.items)
    ensures |lists[|cs|].prs| <= left && Requests(c.items) == lists[|cs|].prs ==>
              WrittenSoFar(cs + [c], lists, answered, left - |lists[|cs|].prs|)
    ensures left < |lists[|cs|].prs| && Requests(c.items) == lists[|cs|].prs[..left] ==>
              PrintsPart(cs, c, lists, answered)
  {
    NamedOfAppend(cs, c);
    assert lists[..|cs| + 1] == lists[..|cs|] + [lists[|cs|]];
    TotalAppend(lists[..|cs|], lists[|cs|]);
  }

  /** How far the script has come below the header: `k` lists are written, or an answer was missing
      before. */
  ghost predicate Progress(ok: bool, cs: seq<Category>, cut: Category, lists: seq<Named>, answered: nat,
                           left: nat, k: nat)
  {
    if ok then |cs| == k && WrittenSoFar(cs, lists, answered, left) else PrintsPart(cs, cut, lists, answered)
  }

  function ProgressText(ok: bool, cs: seq<Category>, cut: Category): string {
    CategoriesText(cs) + (if ok then "" else CategoryText(cut))
  }

  lemma NextText(above: string, cs: seq<Category>, c: Category, ok: bool)
    ensures var text := above + ProgressText(true, cs, c) + (if c.items == [] && ok then "" else CategoryText(c));
            text == above + ProgressText(ok, if ok then cs + [c] else cs, c)
  {
    CategoriesAppend(cs, c);
    Regroup(above, CategoriesText(cs), CategoryText(c));
  }

  /** Append the next list, unless it is empty. */
  method AppendNext(next: Named, file: OpenFile, left: nat, ghost above: string, ghost cs: seq<Category>,
                    ghost cut: Category, ghost lists: seq<Named>, ghost answered: nat, ghost k: nat)
      returns (ok: bool, left': nat, ghost cs': seq<Category>, ghost cut': Category)
    requires file.Valid() && file.written == above + ProgressText(true, cs, cut)
    requires Progress(true, cs, cut, lists, answered, left, k) && k < |lists| && next == lists[k]
    modifies file
    ensures file.Valid() && file.base == old(file.base)
    ensures file.written == above + ProgressText(ok, cs', cut')
    ensures Progress(ok, cs', cut', lists, answered, left', k + 1)
  {
    ghost var items := [];
    ok := true;
    if |next.prs| > 0 {
      ok, items := AppendToFile(next.name, next.prs, file, left);
    }
    ghost var c := Category(next.name, items);
    NextText(above, cs, c, ok);
    NextList(cs, c, lists, answered, left);
    left' := if ok then left - |next.prs| else 0;
    cs', cut' := if ok then cs + [c] else cs, c;
  }

  /** A longer beginning of the lists holds no fewer requests. */
  lemma {:induction false} TotalOfFirst(lists: seq<Named>, n: nat)
    requires n <= |lists|
    ensures Total(lists[..n]) <= Total(lists)
  {
    if n > 0 {
      assert lists[..n][1..] == lists[1..][..n - 1];
      TotalOfFirst(lists[1..], n - 1);
    }
  }

  lemma CutIsShort(cs: seq<Category>, cut: Category, lists: seq<Named>, n: nat)
    requires PrintsPart(cs, cut, lists, n)
    ensures n < Total(lists)
  {
    var k := |cs|;
    assert lists[..k + 1] == lists[..k] + [lists[k]];
    TotalAppend(lists[..k], lists[k]);
    TotalOfFirst(lists, k + 1);
  }

  /** The first two lists, and how many answers are left then. */
  method WriteTwo(file: OpenFile, lists: Lists, answered: nat)
      returns (ok: bool, left: nat, ghost cs: seq<Category>, ghost cut: Category)
    requires file.Valid()
    modifies file
    ensures file.Valid() && file.base == old(file.base)
    ensures Progress(ok, cs, cut, NamedLists(lists), answered, left, 2)
    ensures file.written == old(file.written) + ProgressText(ok, cs, cut)
  {
    left := answered;
    ghost var all, above := NamedLists(lists), file.written;
    cs, cut := [], Category("", []);
    NothingYet(above, cut, all, answered);
    ok, left, cs, cut := AppendNext(Named("Enhancements", lists.enhancements), file, left,
                                    above, cs, cut, all, answered, 0);
    if ok {
      ok, left, cs, cut := AppendNext(Named("Bug fixes", lists.bugFixes), file, left,
                                      above, cs, cut, all, answered, 1);
    }
  }

  /** The four lists one after the other, as far as GitHub answers. */
  method WriteCategories(file: OpenFile, lists: Lists, answered: nat)
      returns (ok: bool, ghost cs: seq<Category>, ghost cut: Category)
    requires file.Valid()
    modifies file
    ensures file.Valid() && file.base == old(file.base)
    ensures ok <==> Total(NamedLists(lists)) <= answered
    ensures if ok then PrintsAs(cs, lists) else PrintsPart(cs, cut, NamedLists(lists), answered)
    ensures file.written == old(file.written) + ProgressText(ok, cs, cut)
  {
    ghost var all, above := NamedLists(lists), file.written;
    var left;
    ok, left, cs, cut := WriteTwo(file, lists, answered);
    if ok {
      ok, left, cs, cut := AppendNext(Named("CI fixes and doc", lists.ciDocs), file, left,
                                      above, cs, cut, all, answered, 2);
    }
    if ok {
      ok, left, cs, cut := AppendNext(Named("Maintenance", lists.maintenance), file, left,
                                      above, cs, cut, all, answered, 3);
    }
    AllOrPart(ok, cs, cut, all, answered, left);
  }

  lemma NothingYet(above: string, cut: Category, lists: seq<Named>, answered: nat)
    ensures Progress(true, [], cut, lists, answered, answered, 0)
    ensures above == above + ProgressText(true, [], cut)
  {
    assert lists[..0] == [];
  }

  lemma AllOrPart(ok: bool, cs: seq<Category>, cut: Category, lists: seq<Named>, answered: nat, left: nat)
    requires Progress(ok, cs, cut, lists, answered, left, |lists|)
    ensures ok <==> Total(lists) <= answered
    ensures ok ==> NamedOf(cs) == lists && AllTagged(cs)
  {
    if ok {
      assert lists[..|lists|] == lists;
    } else {
      CutIsShort(cs, cut, lists, answered);
    }
  }

  /** A release as far as it was written when a call failed: the categories that are complete, and
      the beginning of the next. */
  function PartText(date: string, version: string, cs: seq<Category>, cut: Category): string {
    HeaderText(date, version) + CategoriesText(cs) + CategoryText(cut)
  }

  method WriteHeader(file: OpenFile, date: string, version: string)
    requires file.Valid() && file.written == ""
    modifies file
    ensures file.Valid() && file.base == old(file.base) && file.written == HeaderText(date, version)
  {
    file.Write(H2 + date + "\n");
    file.Write("\n" + ReleaseLine(version) + "\n");
  }

  method WriteRelease(file: OpenFile, date: string, version: string, lists: Lists, answered: nat)
      returns (ok: bool, ghost cs: seq<Category>, ghost cut: Category)
    requires file.Valid() && file.position == 0
    modifies file
    ensures ok <==> Total(NamedLists(lists)) <= answered
    ensures ok ==> PrintsAs(cs, lists) && file.text == ReleaseText(date, version, cs) + old(file.text)
    ensures !ok ==>
              && PrintsPart(cs, cut, NamedLists(lists), answered)
              && file.text == Overwritten(old(file.text), PartText(date, version, cs, cut))
  {
    var restore := file.Read();
    file.Rewind();
    WriteHeader(file, date, version);
    ok, cs, cut := WriteCategories(file, lists, answered);
    if ok {
      file.Write("\n" + restore);
      WholeWritten(restore, HeaderText(date, version), CategoriesText(cs));
    } else {
      Regroup(HeaderText(date, version), CategoriesText(cs), CategoryText(cut));
    }
  }

  /** When the older text is written behind the release, nothing of the old file is left behind it. */
  lemma WholeWritten(text: string, header: string, categories: string)
    ensures Overwritten(text, header + (categories + "") + ("\n" + text)) == header + categories + "\n" + text
  {
    assert categories + "" == categories;
    Regroup(header + categories, "\n", text);
  }

  /** All requests are in the four lists. */
  lemma AllAreListed(prs: seq<PullRequest>)
    requires Classified(prs)
    ensures Total(NamedLists(Sorted(prs))) == |prs|
  {
    DispatchConserves(prs);
    var s := Sorted(prs);
    var a, b := multiset(s.enhancements), multiset(s.bugFixes);
    var c, d := multiset(s.ciDocs), multiset(s.maintenance);
    assert |a + b + c + d| == |multiset(prs)| == |prs|;
    FourTotal(NamedLists(s));
  }

  lemma FourTotal(lists: seq<Named>)
    requires |lists| == 4
    ensures Total(lists) == |lists[0].prs| + |lists[1].prs| + |lists[2].prs| + |lists[3].prs|
  {
    assert lists == [] + [lists[0]] + [lists[1]] + [lists[2]] + [lists[3]];
    TotalAppend([], lists[0]);
    TotalAppend([] + [lists[0]], lists[1]);
    TotalAppend([] + [lists[0]] + [lists[1]], lists[2]);
    TotalAppend([] + [lists[0]] + [lists[1]] + [lists[2]], lists[3]);
  }

  class Repository {
    var changelog: string

    constructor (contents: string)
      ensures changelog == contents
    {
      changelog := contents;
    }

    /** Nothing is written unless the version and every label are in order. If then the details of
        every request are answered, the new release stands in front of everything that was there
        before; otherwise what could be written of it has replaced the beginning of the file. */
    method Update(date: string, version: string, prs: seq<PullRequest>, answered: nat)
        returns (r: Result<Lists, UpdateError>, ghost cs: seq<Category>, ghost cut: Category)
      modifies this
      ensures r.Err? && r.error != NoAnswer ==> changelog == old(changelog)
      ensures r.Ok? || r.error == NoAnswer <==> VersionScheme.Parse(version).Ok? && Classified(prs)
      ensures r.Ok? ==>
                && r.value == Sorted(prs) && |prs| <= answered
                && PrintsAs(cs, Sorted(prs))
                && changelog == ReleaseText(date, version, cs) + old(changelog)
      ensures r == Err(NoAnswer) ==>
                && answered < |prs|
                && PrintsPart(cs, cut, NamedLists(Sorted(prs)), answered)
                && changelog == Overwritten(old(changelog), PartText(date, version, cs, cut))
    {
      cs, cut := [], Category("", []);
      var info := new VersionScheme.VersionInfo();
      var bad := info.Init(version);
      if bad.Some? {
        return Err(BadVersion(bad.value)), cs, cut;
      }
      var lists := Dispatch(prs);
      if lists.Err? {
        return Err(BadLabels(lists.error.0, lists.error.1)), cs, cut;
      }
      AllAreListed(prs);
      var file := new OpenFile(changelog);
      var ok;
      ok, cs, cut := WriteRelease(file, date, info.name, lists.value, answered);
      changelog := file.text;
      r := if ok then Ok(lists.value) else Err(NoAnswer);
    }
  }

  // ---------- a release cut short ----------

  predicate IsSuffix(earlier: string, now: string) {
    |earlier| <= |now| && now[|now| - |earlier|..] == earlier
  }

  /** When a call fails, the older text survives if and only if it happens to begin with what was
      written over it. */
  lemma OlderTextIsLost(text: string, s: string)
    requires |s| <= |text|
    ensures IsSuffix(text, Overwritten(text, s)) <==> s <= text
  {
    assert text == text[..|s|] + text[|s|..];
    assert Overwritten(text, s)[..|s|] == s;
  }
}
