/** The scope grammar of agent tokens (`parse_scope`, `_validated_scope`). */
module Scope {
  import opened Text

  const READ: string := "read"
  const RW: string := "rw"
  const PREFIX: string := "project:"
  const MAX_SLUG: nat := 64
  const MAX_PROJECTS: nat := 32

  datatype ScopeError = TwoClasses | BadSlug | UnknownGrant | TooManyProjects

  // ----- The grammar -----

  predicate SlugChar(c: char) {
    c != ':' && c != ',' && c != ' ' && c != '\t' && c != '*'
  }

  /** `_valid_project_slug` */
  predicate ValidSlug(slug: string) {
    slug != "" && |slug| <= MAX_SLUG && Strip(slug) == slug && forall i :: 0 <= i < |slug| ==> SlugChar(slug[i])
  }

  predicate IsClass(g: string) { g == READ || g == RW }

  predicate IsProject(g: string) { |g| >= 8 && g[..8] == PREFIX }

  /** The comma-separated parts, stripped, blanks dropped. */
  function Pieces(parts: seq<string>): seq<string> {
    if parts == [] then []
    else
      var piece := Strip(parts[|parts| - 1]);
      Pieces(parts[..|parts| - 1]) + (if piece == "" then [] else [piece])
  }

  function Grants(spec: string): seq<string> {
    Pieces(Split(spec, ','))
  }

  /** The class seen so far and the projects named so far. */
  datatype Seen = Seen(class_: Option<string>, projects: set<string>)

  function AddGrant(seen: Seen, g: string): Result<Seen, ScopeError> {
    if IsClass(g) then
      if seen.class_.Some? && g != seen.class_.value then Err(TwoClasses) else Ok(seen.(class_ := Some(g)))
    else if IsProject(g) then
      if ValidSlug(g[8..]) then Ok(seen.(projects := seen.projects + {g[8..]})) else Err(BadSlug)
    else Err(UnknownGrant)
  }

  function Collect(grants: seq<string>): Result<Seen, ScopeError> {
    if grants == [] then Ok(Seen(None, {}))
    else
      match Collect(grants[..|grants| - 1])
      case Err(e) => Err(e)
      case Ok(seen) => AddGrant(seen, grants[|grants| - 1])
  }

  // ----- `sorted` on a set of strings -----

  ghost predicate Ascending(s: seq<string>) {
    forall i, j :: 0 <= i < j < |s| ==> Below(s[i], s[j])
  }

  /** `s` lists the set in ascending order. */
  ghost predicate Lists(s: seq<string>, elements: set<string>) {
    Ascending(s) && (forall x :: x in s <==> x in elements)
  }

  lemma {:induction false} OneAscendingList(s: seq<string>, t: seq<string>, elements: set<string>)
    requires Lists(s, elements) && Lists(t, elements)
    ensures s == t
    decreases |s|
  {
    ListsCount(s, elements);
    ListsCount(t, elements);
    if s != [] {
      assert s[0] in t;
      var i :| 0 <= i < |t| && t[i] == s[0];
      assert t[0] in s;
      var j :| 0 <= j < |s| && s[j] == t[0];
      BelowTrichotomy(s[0], t[0]);
      assert i == 0;
      ListsTail(s, elements);
      ListsTail(t, elements);
      OneAscendingList(s[1..], t[1..], elements - {s[0]});
      assert s == [s[0]] + s[1..] && t == [t[0]] + t[1..];
    }
  }

  lemma ListsTail(s: seq<string>, elements: set<string>)
    requires Lists(s, elements) && s != []
    ensures Lists(s[1..], elements - {s[0]})
  {
    assert s == [s[0]] + s[1..];
    forall x | x in s[1..]
      ensures x != s[0]
    {
      BelowTrichotomy(s[0], x);
    }
  }

  lemma {:induction false} ListsCount(s: seq<string>, elements: set<string>)
    requires Lists(s, elements)
    ensures |s| == |elements|
    decreases |s|
  {
    if s == [] {
      assert elements == {};
    } else {
      ListsTail(s, elements);
      ListsCount(s[1..], elements - {s[0]});
      assert s[0] in elements;
    }
  }

  function InsertString(s: seq<string>, x: string): seq<string> {
    if s == [] || Below(x, s[0]) then [x] + s
    else if x == s[0] then s
    else [s[0]] + InsertString(s[1..], x)
  }

  lemma {:induction false} InsertLists(s: seq<string>, x: string, elements: set<string>)
    requires Lists(s, elements)
    ensures Lists(InsertString(s, x), elements + {x})
    decreases |s|
  {
    if s == [] {
    } else if Below(x, s[0]) {
      forall j | 0 <= j < |s|
        ensures Below(x, s[j])
      {
        if j > 0 { BelowTransitive(x, s[0], s[j]); }
      }
    } else if x != s[0] {
      BelowTrichotomy(x, s[0]);
      ListsTail(s, elements);
      InsertLists(s[1..], x, elements - {s[0]});
      var rest := InsertString(s[1..], x);
      assert s == [s[0]] + s[1..];
      forall j | 0 <= j < |rest|
        ensures Below(s[0], rest[j])
      {
        assert rest[j] in rest;
        if rest[j] != x {
          var k :| 0 <= k < |s| && s[k] == rest[j];
        }
      }
    }
  }

  /** The ascending list of a set. */
  ghost function SortedList(elements: set<string>): seq<string> {
    if elements == {} then []
    else
      var x :| x in elements;
      InsertString(SortedList(elements - {x}), x)
  }

  lemma {:induction false} SortedListLists(elements: set<string>)
    ensures Lists(SortedList(elements), elements)
  {
    if elements != {} {
      var x :| x in elements && SortedList(elements) == InsertString(SortedList(elements - {x}), x);
      SortedListLists(elements - {x});
      InsertLists(SortedList(elements - {x}), x, elements - {x});
      assert elements - {x} + {x} == elements;
    }
  }

  // ----- Parsing -----

  function Prefixed(slugs: seq<string>): seq<string> {
    seq(|slugs|, i requires 0 <= i < |slugs| => PREFIX + slugs[i])
  }

  ghost function Parse(spec: string): Result<seq<string>, ScopeError> {
    match Collect(Grants(spec))
    case Err(e) => Err(e)
    case Ok(seen) =>
      if |seen.projects| > MAX_PROJECTS then Err(TooManyProjects)
      else Ok([if seen.class_.Some? then seen.class_.value else READ] + Prefixed(SortedList(seen.projects)))
  }

  method ParseScope(spec: string) returns (r: Result<seq<string>, ScopeError>)
    ensures r == Parse(spec)
  {
    hide Strip, ValidSlug;
    var parts, grants := Split(spec, ','), [];
    for k := 0 to |parts|
      invariant grants == Pieces(parts[..k])
    {
      assert parts[..k + 1][..k] == parts[..k];
      var piece := Strip(parts[k]);
      if piece != "" {
        grants := grants + [piece];
      }
    }
    assert parts[..|parts|] == parts;
    if grants == [] {
      var none: set<string> := {};
      assert SortedList(none) == [] && [READ] + Prefixed([]) == [READ];
      return Ok([READ]);
    }
    var class_, projects: set<string> := None, {};
    for k := 0 to |grants|
      invariant Collect(grants[..k]) == Ok(Seen(class_, projects))
    {
      assert grants[..k + 1][..k] == grants[..k];
      var next := AddGrant(Seen(class_, projects), grants[k]);
      if next.Err? {
        CollectFails(grants, k + 1);
        return Err(next.error);
      }
      class_, projects := next.value.class_, next.value.projects;
    }
    assert grants[..|grants|] == grants;
    if |projects| > MAX_PROJECTS {
      return Err(TooManyProjects);
    }
    var sorted := SortSet(projects);
    r := Ok([if class_.Some? then class_.value else READ] + Prefixed(sorted));
  }

  lemma {:induction false} CollectFails(grants: seq<string>, k: nat)
    requires k <= |grants| && Collect(grants[..k]).Err?
    ensures Collect(grants) == Collect(grants[..k])
    decreases |grants|
  {
    if k == |grants| {
      assert grants[..k] == grants;
    } else {
      var rest := grants[..|grants| - 1];
      assert rest[..k] == grants[..k];
      CollectFails(rest, k);
    }
  }

  method SortSet(elements: set<string>) returns (sorted: seq<string>)
    ensures sorted == SortedList(elements)
  {
    sorted := [];
    var left := elements;
    while left != {}
      invariant left <= elements && Lists(sorted, elements - left)
      decreases left
    {
      var x :| x in left;
      InsertLists(sorted, x, elements - left);
      left := left - {x};
      assert elements - left == elements - (left + {x}) + {x};
      sorted := InsertString(sorted, x);
    }
    assert elements - {} == elements;
    SortedListLists(elements);
    OneAscendingList(sorted, SortedList(elements), elements);
  }

  /** `scope_allows_write` and `token_project_grants` on a list of grants. */
  predicate AllowsWrite(grants: seq<string>) { RW in grants }

  function ProjectGrants(grants: seq<string>): seq<string> {
    if grants == [] then []
    else
      (if IsProject(grants[0]) then [grants[0][8..]] else []) + ProjectGrants(grants[1..])
  }

  /** The same two on the comma string a registry row stores. */
  predicate StoredAllowsWrite(stored: string) { AllowsWrite(Split(stored, ',')) }

  function StoredProjectGrants(stored: string): seq<string> { ProjectGrants(Split(stored, ',')) }

  /** `_validated_scope` */
  ghost function ValidatedScope(scope: seq<string>): (r: Option<seq<string>>)
    ensures r.Some? ==> r.value == scope
  {
    if scope == [] then None
    else if AllowsWrite(scope) && READ in scope then None
    else if Parse(Join(scope, ",")) != Ok(scope) then None
    else Some(scope)
  }

  // ----- What parsing means -----

  predicate GoodGrant(g: string) {
    IsClass(g) || (IsProject(g) && ValidSlug(g[8..]))
  }

  ghost function ProjectsOf(grants: seq<string>): set<string> {
    set g | g in grants && IsProject(g) :: g[8..]
  }

  ghost predicate AllGood(grants: seq<string>) {
    forall g :: g in grants ==> GoodGrant(g)
  }

  /** Every grant is well formed, not both classes, at most 32 projects. */
  ghost predicate WellFormed(grants: seq<string>) {
    AllGood(grants) && !(READ in grants && RW in grants) && |ProjectsOf(grants)| <= MAX_PROJECTS
  }

  /** The normal form: the class, then the projects in order. */
  ghost predicate NormalForm(list: seq<string>, write: bool, projects: set<string>) {
    && list != [] && list[0] == (if write then RW else READ)
    && exists slugs :: Lists(slugs, projects) && list[1..] == Prefixed(slugs)
  }

  function ClassOf(grants: seq<string>): Option<string> {
    if RW in grants then Some(RW) else if READ in grants then Some(READ) else None
  }

  lemma OneMoreGrant(rest: seq<string>, g: string)
    ensures AllGood(rest + [g]) <==> AllGood(rest) && GoodGrant(g)
    ensures forall h :: h in rest + [g] <==> h in rest || h == g
    ensures ProjectsOf(rest + [g]) == ProjectsOf(rest) + (if IsProject(g) then {g[8..]} else {})
  {
    assert forall h :: h in rest ==> h in rest + [g];
    assert g in rest + [g];
  }

  lemma ClassesDiffer()
    ensures READ != RW && !IsProject(READ) && !IsProject(RW)
  {
  }

  lemma {:induction false} CollectExactly(grants: seq<string>)
    ensures Collect(grants).Ok? <==> AllGood(grants) && !(READ in grants && RW in grants)
    ensures Collect(grants).Ok? ==> Collect(grants).value == Seen(ClassOf(grants), ProjectsOf(grants))
  {
    if grants != [] {
      var (rest, g) := (grants[..|grants| - 1], grants[|grants| - 1]);
      CollectExactly(rest);
      assert grants == rest + [g];
      OneMoreGrant(rest, g);
      ClassesDiffer();
      if IsClass(g) {
        assert ProjectsOf(grants) == ProjectsOf(rest);
      }
    }
  }

  /** A spec parses exactly when its grants are well formed, and to the normal
      form of what it grants; nothing else about the spec matters. */
  lemma ParseExactly(spec: string)
    ensures Parse(spec).Ok? <==> WellFormed(Grants(spec))
    ensures Parse(spec).Ok? ==> NormalForm(Parse(spec).value, RW in Grants(spec), ProjectsOf(Grants(spec)))
  {
    CollectExactly(Grants(spec));
    if Parse(spec).Ok? {
      var projects := ProjectsOf(Grants(spec));
      SortedListLists(projects);
      assert Parse(spec).value[1..] == Prefixed(SortedList(projects));
    }
  }

  lemma OneNormalForm(a: seq<string>, b: seq<string>, write: bool, projects: set<string>)
    requires NormalForm(a, write, projects) && NormalForm(b, write, projects)
    ensures a == b
  {
    var s :| Lists(s, projects) && a[1..] == Prefixed(s);
    var t :| Lists(t, projects) && b[1..] == Prefixed(t);
    OneAscendingList(s, t, projects);
    assert a == [a[0]] + a[1..] && b == [b[0]] + b[1..];
  }

  /** Two accepted specs give the same list exactly when they grant the same. */
  lemma SameGrantsSameList(a: string, b: string)
    requires Parse(a).Ok? && Parse(b).Ok?
    ensures Parse(a) == Parse(b) <==>
      (RW in Grants(a) <==> RW in Grants(b)) && ProjectsOf(Grants(a)) == ProjectsOf(Grants(b))
  {
    ParseExactly(a);
    ParseExactly(b);
    if (RW in Grants(a) <==> RW in Grants(b)) && ProjectsOf(Grants(a)) == ProjectsOf(Grants(b)) {
      OneNormalForm(Parse(a).value, Parse(b).value, RW in Grants(a), ProjectsOf(Grants(a)));
    } else if Parse(a) == Parse(b) {
      NormalFormReads(Parse(a).value, RW in Grants(a), ProjectsOf(Grants(a)));
      NormalFormReads(Parse(b).value, RW in Grants(b), ProjectsOf(Grants(b)));
      assert false;
    }
  }

  lemma PrefixedReads(slugs: seq<string>)
    ensures forall i :: 0 <= i < |slugs| ==> IsProject(Prefixed(slugs)[i]) && Prefixed(slugs)[i][8..] == slugs[i]
  {
  }

  /** A normal form says what it was made from. */
  lemma NormalFormReads(list: seq<string>, write: bool, projects: set<string>)
    requires NormalForm(list, write, projects)
    ensures (RW in list <==> write) && (READ in list <==> !write) && ProjectsOf(list) == projects
  {
    var slugs :| Lists(slugs, projects) && list[1..] == Prefixed(slugs);
    PrefixedReads(slugs);
    assert list == [list[0]] + Prefixed(slugs);
    assert forall g :: g in Prefixed(slugs) ==> IsProject(g);
    assert !IsProject(READ) && !IsProject(RW) && READ != RW;
    forall p | p in projects
      ensures p in ProjectsOf(list)
    {
      var i :| 0 <= i < |slugs| && slugs[i] == p;
      assert Prefixed(slugs)[i] in list;
    }
  }

  // ----- Joining and parsing again -----

  lemma GoodGrantKeeps(g: string)
    requires GoodGrant(g)
    ensures Free(g, ',') && Strip(g) == g && g != ""
  {
    if IsClass(g) {
      StripId(g);
    } else {
      var slug := g[8..];
      assert g == g[..8] + slug;
      StripEnds(slug);
      assert g[|g| - 1] == slug[|slug| - 1] && g[0] == PREFIX[0];
      StripId(g);
      forall i | 0 <= i < |g|
        ensures g[i] != ','
      {
        assert g[i] == if i < 8 then PREFIX[i] else slug[i - 8];
        assert i >= 8 ==> SlugChar(slug[i - 8]);
      }
    }
  }

  lemma StripEnds(s: string)
    requires Strip(s) == s && s != ""
    ensures !IsSpace(s[|s| - 1])
  {
    RStripSplits(LStrip(s));
  }

  lemma {:induction false} PiecesOfGood(parts: seq<string>)
    requires forall i :: 0 <= i < |parts| ==> Strip(parts[i]) == parts[i] && parts[i] != ""
    ensures Pieces(parts) == parts
  {
    if parts != [] {
      PiecesOfGood(parts[..|parts| - 1]);
      assert parts == parts[..|parts| - 1] + [parts[|parts| - 1]];
    }
  }

  lemma NormalFormIsGood(list: seq<string>, write: bool, projects: set<string>)
    requires NormalForm(list, write, projects) && forall p :: p in projects ==> ValidSlug(p)
    ensures AllGood(list)
  {
    var slugs :| Lists(slugs, projects) && list[1..] == Prefixed(slugs);
    PrefixedReads(slugs);
    assert list == [list[0]] + Prefixed(slugs);
  }

  /** The grants of the joined list are the list: the comma string a row stores
      and the list itself grant the same writes and the same projects. */
  lemma StoredFormAgrees(list: seq<string>)
    requires list != [] && AllGood(list)
    ensures Split(Join(list, ","), ',') == list && Grants(Join(list, ",")) == list
    ensures StoredAllowsWrite(Join(list, ",")) == AllowsWrite(list)
    ensures StoredProjectGrants(Join(list, ",")) == ProjectGrants(list)
  {
    forall i | 0 <= i < |list|
      ensures Free(list[i], ',') && Strip(list[i]) == list[i] && list[i] != ""
    {
      GoodGrantKeeps(list[i]);
    }
    SplitJoin(list, ',');
    PiecesOfGood(list);
  }

  /** An output of the parser joins to a spec of itself. */
  lemma ParseIsNormalising(spec: string)
    requires Parse(spec).Ok?
    ensures Parse(Join(Parse(spec).value, ",")) == Parse(spec)
    ensures AllGood(Parse(spec).value)
    ensures AllowsWrite(Parse(spec).value) == (RW in Grants(spec))
    ensures ProjectsOf(Parse(spec).value) == ProjectsOf(Grants(spec))
  {
    var (list, grants) := (Parse(spec).value, Grants(spec));
    ParseExactly(spec);
    forall p | p in ProjectsOf(grants)
      ensures ValidSlug(p)
    {
      var g :| g in grants && IsProject(g) && g[8..] == p;
      assert GoodGrant(g) && !IsClass(g);
    }
    NormalFormIsGood(list, RW in grants, ProjectsOf(grants));
    StoredFormAgrees(list);
    NormalFormReads(list, RW in grants, ProjectsOf(grants));
    ParseExactly(Join(list, ","));
    SameGrantsSameList(spec, Join(list, ","));
  }

  /** What a list of grants the parser puts out looks like: a class, then at most 32
      valid projects in strictly ascending order. */
  predicate IsGrantList(list: seq<string>) {
    && list != [] && IsClass(list[0]) && |list| <= MAX_PROJECTS + 1
    && (forall i :: 1 <= i < |list| ==> IsProject(list[i]) && ValidSlug(list[i][8..]))
    && (forall i, j :: 1 <= i < j < |list| ==> Below(list[i][8..], list[j][8..]))
  }

  lemma PrefixedIsGrantList(list: seq<string>, slugs: seq<string>)
    requires list != [] && IsClass(list[0]) && list[1..] == Prefixed(slugs) && |slugs| <= MAX_PROJECTS
    requires Ascending(slugs) && forall i :: 0 <= i < |slugs| ==> ValidSlug(slugs[i])
    ensures IsGrantList(list)
  {
    hide ValidSlug, Below, IsProject;
    PrefixedReads(slugs);
    assert forall i :: 1 <= i < |list| ==> list[i] == Prefixed(slugs)[i - 1];
  }

  lemma OutputsAreGrantLists(spec: string)
    requires Parse(spec).Ok?
    ensures IsGrantList(Parse(spec).value)
  {
    var (list, projects) := (Parse(spec).value, ProjectsOf(Grants(spec)));
    ParseExactly(spec);
    hide Parse, Grants, Below, ValidSlug, IsProject, IsGrantList;
    var slugs :| Lists(slugs, projects) && list[1..] == Prefixed(slugs);
    ListsCount(slugs, projects);
    forall i | 0 <= i < |slugs|
      ensures ValidSlug(slugs[i])
    {
      assert slugs[i] in projects;
      var g :| g in Grants(spec) && IsProject(g) && g[8..] == slugs[i];
      ProjectHasValidSlug(g);
    }
    PrefixedIsGrantList(list, slugs);
  }

  lemma ProjectHasValidSlug(g: string)
    requires GoodGrant(g) && IsProject(g)
    ensures ValidSlug(g[8..])
  {
    ClassesDiffer();
  }

  function SlugsOf(list: seq<string>): (slugs: seq<string>)
    requires IsGrantList(list)
    ensures |slugs| == |list| - 1 && forall i :: 1 <= i < |list| ==> slugs[i - 1] == list[i][8..]
  {
    seq(|list| - 1, i requires 0 <= i < |list| - 1 => list[i + 1][8..])
  }

  lemma SlugsAreTheProjects(list: seq<string>)
    requires IsGrantList(list)
    ensures Lists(SlugsOf(list), ProjectsOf(list)) && list[1..] == Prefixed(SlugsOf(list))
  {
    hide ValidSlug, Below;
    ClassesDiffer();
    var (slugs, projects) := (SlugsOf(list), ProjectsOf(list));
    forall p | p in projects
      ensures p in slugs
    {
      var g :| g in list && IsProject(g) && g[8..] == p;
      var i :| 0 <= i < |list| && list[i] == g;
      assert slugs[i - 1] == p;
    }
    forall i | 0 <= i < |slugs|
      ensures slugs[i] in projects && list[1..][i] == Prefixed(slugs)[i]
    {
      assert list[i + 1] in list && list[i + 1] == PREFIX + list[i + 1][8..];
    }
  }

  lemma GrantListIsNormal(list: seq<string>)
    requires IsGrantList(list)
    ensures AllGood(list) && !(READ in list && RW in list) && |ProjectsOf(list)| <= MAX_PROJECTS
    ensures NormalForm(list, RW in list, ProjectsOf(list))
  {
    hide ValidSlug, Below, ProjectsOf;
    ClassesDiffer();
    SlugsAreTheProjects(list);
    ListsCount(SlugsOf(list), ProjectsOf(list));
  }

  lemma GrantListsParse(list: seq<string>)
    requires IsGrantList(list)
    ensures Parse(Join(list, ",")) == Ok(list)
  {
    hide Parse, IsGrantList;
    GrantListIsNormal(list);
    assert list != [];
    StoredFormAgrees(list);
    var spec := Join(list, ",");
    ParseExactly(spec);
    OneNormalForm(Parse(spec).value, list, RW in list, ProjectsOf(list));
  }

  /** The parser puts out exactly the grant lists. */
  lemma OutputsExactly(list: seq<string>)
    ensures (exists spec :: Parse(spec) == Ok(list)) <==> IsGrantList(list)
  {
    hide Parse, IsGrantList;
    if spec :| Parse(spec) == Ok(list) {
      OutputsAreGrantLists(spec);
    }
    if IsGrantList(list) {
      GrantListsParse(list);
    }
  }

  /** The claim check accepts exactly the outputs of the parser, the grant lists. */
  lemma ClaimCheckAcceptsNormalForms(scope: seq<string>)
    ensures ValidatedScope(scope).Some? <==> IsGrantList(scope)
  {
    hide Parse;
    if scope != [] && Parse(Join(scope, ",")) == Ok(scope) {
      OutputsAreGrantLists(Join(scope, ","));
    }
    if IsGrantList(scope) {
      GrantListsParse(scope);
      GrantListIsNormal(scope);
    }
  }

  // ----- Single grants, spelled out -----

  lemma OneGrant(spec: string, g: string)
    requires Free(spec, ',') && Strip(spec) == g && g != ""
    ensures Grants(spec) == [g] && Collect(Grants(spec)) == AddGrant(Seen(None, {}), g)
  {
    hide Strip;
    SplitFree(spec, ',');
    assert [spec][..0] == [] && Pieces([]) == [];
    assert Pieces([spec]) == [] + [g];
    assert [g][..0] == [];
  }

  /** What is collected is put out under its class, the projects in order. */
  lemma ParseOfCollected(spec: string, seen: Seen, slugs: seq<string>)
    requires Collect(Grants(spec)) == Ok(seen) && Lists(slugs, seen.projects) && |slugs| <= 32
    ensures Parse(spec) == Ok([if seen.class_.Some? then seen.class_.value else READ] + Prefixed(slugs))
  {
    hide Grants, Collect;
    SortedListLists(seen.projects);
    ListsCount(slugs, seen.projects);
    OneAscendingList(SortedList(seen.projects), slugs, seen.projects);
  }

  /** A spec that is one project grant, whatever whitespace stands around it, is accepted,
      as a read of that project, if and only if the slug has 1 to 64 characters, does not
      begin with whitespace, and has no colon, blank, tab or star; a comma would have cut
      it in two. */
  lemma ProjectGrantExactly(before: string, slug: string, after: string)
    requires AllSpace(before) && AllSpace(after) && Free(slug, ',') && (slug != "" ==> !IsSpace(slug[|slug| - 1]))
    ensures
      var good := 1 <= |slug| <= 64 && !IsSpace(slug[0])
        && forall i :: 0 <= i < |slug| ==> slug[i] != ':' && slug[i] != ' ' && slug[i] != '\t' && slug[i] != '*';
      Parse(before + ("project:" + slug) + after) == if good then Ok(["read", "project:" + slug]) else Err(BadSlug)
  {
    hide *;
    var spec := before + ("project:" + slug) + after;
    ProjectSpec(before, slug, after);
    SlugsExactly(slug);
    AddProject(slug);
    if ValidSlug(slug) {
      OneSlug(slug);
      ParseOfCollected(spec, Seen(None, {slug}), [slug]);
    } else {
      FailedCollect(spec);
    }
  }

  lemma ProjectSpec(before: string, slug: string, after: string)
    requires AllSpace(before) && AllSpace(after) && Free(slug, ',') && (slug != "" ==> !IsSpace(slug[|slug| - 1]))
    ensures Collect(Grants(before + ("project:" + slug) + after)) == AddGrant(Seen(None, {}), "project:" + slug)
  {
    hide Strip, Grants, Collect, AddGrant;
    var g := "project:" + slug;
    assert g[|g| - 1] == (if slug == "" then ':' else slug[|slug| - 1]) && g[0] == 'p';
    StripPadded(before, g, after);
    SpecIsFree(before, g, after);
    OneGrant(before + g + after, g);
  }

  lemma OneSlug(slug: string)
    ensures Lists([slug], {slug}) && [READ] + Prefixed([slug]) == ["read", "project:" + slug]
  {
  }

  lemma FailedCollect(spec: string)
    requires Collect(Grants(spec)).Err?
    ensures Parse(spec) == Err(Collect(Grants(spec)).error)
  {
  }

  lemma AddProject(slug: string)
    ensures AddGrant(Seen(None, {}), "project:" + slug) == if ValidSlug(slug) then Ok(Seen(None, {slug})) else Err(BadSlug)
  {
    hide ValidSlug;
    var (g, none) := ("project:" + slug, {});
    assert |READ| == 4 && |RW| == 2 && g[..8] == PREFIX && g[8..] == slug;
    assert none + {slug} == {slug};
  }

  lemma SpecIsFree(before: string, g: string, after: string)
    requires AllSpace(before) && AllSpace(after) && Free(g, ',')
    ensures Free(before + g + after, ',')
  {
  }

  lemma SlugsExactly(slug: string)
    requires Free(slug, ',') && (slug != "" ==> !IsSpace(slug[|slug| - 1]))
    ensures
      var good := 1 <= |slug| <= 64 && !IsSpace(slug[0])
        && forall i :: 0 <= i < |slug| ==> slug[i] != ':' && slug[i] != ' ' && slug[i] != '\t' && slug[i] != '*';
      ValidSlug(slug) <==> good
  {
    if slug != "" {
      LStripSplits(slug);
      RStripSplits(LStrip(slug));
      if !IsSpace(slug[0]) {
        StripId(slug);
      }
      assert forall i :: 0 <= i < |slug| ==> slug[i] != ',';
    }
  }

  /** One class alone grants that class; nothing at all reads. */
  lemma ClassGrantExactly(before: string, class_: string, after: string)
    requires AllSpace(before) && AllSpace(after) && (class_ == "read" || class_ == "rw" || class_ == "")
    ensures Parse(before + class_ + after) == Ok([if class_ == "" then "read" else class_])
  {
    var spec := before + class_ + after;
    StripPadded(before, class_, after);
    SpecIsFree(before, class_, after);
    hide Strip, Grants;
    if class_ == "" {
      BlankGrantsNothing(spec);
      ParseOfCollected(spec, Seen(None, {}), []);
      assert [READ] + Prefixed([]) == ["read"];
    } else {
      OneGrant(spec, class_);
      ParseOfCollected(spec, Seen(Some(class_), {}), []);
      assert [class_] + Prefixed([]) == [class_];
    }
  }

  lemma BlankGrantsNothing(spec: string)
    requires Free(spec, ',') && Strip(spec) == ""
    ensures Grants(spec) == []
  {
    hide Strip;
    SplitFree(spec, ',');
    assert [spec][..0] == [] && Pieces([]) == [];
  }

  /** Whitespace around the parts of a longer spec is ignored in the same way. */
  lemma PaddingIsIgnored(parts: seq<string>, padded: seq<string>)
    requires parts != [] && |padded| == |parts|
    requires forall i :: 0 <= i < |parts| ==> Padding(parts[i], padded[i])
    ensures Parse(Join(padded, ",")) == Parse(Join(parts, ","))
  {
    hide Strip, Padding, Parse, Free;
    forall i | 0 <= i < |parts|
      ensures Free(parts[i], ',') && Free(padded[i], ',') && Strip(padded[i]) == Strip(parts[i]) == parts[i]
    {
      PaddingStrips(parts[i], padded[i]);
    }
    SplitJoin(parts, ',');
    SplitJoin(padded, ',');
    SamePieces(parts, padded);
    assert Grants(Join(padded, ",")) == Grants(Join(parts, ","));
    SameGrantsSameParse(Join(padded, ","), Join(parts, ","));
  }

  lemma SameGrantsSameParse(a: string, b: string)
    requires Grants(a) == Grants(b)
    ensures Parse(a) == Parse(b)
  {
  }

  lemma PaddingStrips(part: string, padded: string)
    requires Padding(part, padded)
    ensures Free(part, ',') && Free(padded, ',') && Strip(padded) == Strip(part) == part
  {
    hide Strip;
    var before, after :| AllSpace(before) && AllSpace(after) && padded == before + part + after;
    StripPadded(before, part, after);
    StripPadded("", part, "");
    assert "" + part + "" == part;
    SpecIsFree(before, part, after);
  }

  ghost predicate Padding(part: string, padded: string) {
    && Free(part, ',') && (part != "" ==> !IsSpace(part[0]) && !IsSpace(part[|part| - 1]))
    && exists before, after :: AllSpace(before) && AllSpace(after) && padded == before + part + after
  }

  lemma {:induction false} SamePieces(parts: seq<string>, padded: seq<string>)
    requires |padded| == |parts| && forall i :: 0 <= i < |parts| ==> Strip(padded[i]) == Strip(parts[i])
    ensures Pieces(padded) == Pieces(parts)
  {
    if parts != [] {
      SamePieces(parts[..|parts| - 1], padded[..|parts| - 1]);
    }
  }
}
