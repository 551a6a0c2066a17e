/**
  Grouping of inspected containers by compose project
  (backend/internal/migration/compose_migration.go).
 */
module Compose {
  import opened Text

  /**
    A container as the source engine describes it, with what the engines will answer about it:
    whether stopping it on the source, creating it on calf and starting it on calf succeed.
   */
  datatype Container = Container(
    rawName: string, project: string, workingDir: string, configFiles: seq<string>,
    wasRunning: bool, stopOk: bool, createOk: bool, startOk: bool)

  datatype Group = Group(
    name: string, workingDir: string, configFiles: seq<string>,
    containers: seq<Container>, wasRunning: map<string, bool>)

  function Name(c: Container): string {
    if |c.rawName| > 0 && c.rawName[0] == '/' then c.rawName[1..] else c.rawName
  }

  /** One leading slash is dropped, and nothing else. */
  lemma NameDropsSlash(c: Container)
    ensures c.rawName == ['/'] + Name(c) || (c.rawName == Name(c) && !(['/'] <= c.rawName))
  {
  }

  // ----- Sorted names -----

  ghost predicate Sorted(names: seq<string>) {
    forall i, j :: 0 <= i < j < |names| ==> Less(names[i], names[j])
  }

  function Elements(names: seq<string>): set<string> { set x | x in names }

  function Insert(name: string, names: seq<string>): (r: seq<string>)
    ensures multiset(r) == multiset(names) + multiset{name}
  {
    if names == [] then [name]
    else if Less(name, names[0]) then [name] + names
    else
      var rest := Insert(name, names[1..]);
      assert names == [names[0]] + names[1..];
      [names[0]] + rest
  }

  lemma InsertElements(name: string, names: seq<string>)
    ensures forall x :: x in Insert(name, names) <==> x in names || x == name
    ensures Elements(Insert(name, names)) == Elements(names) + {name}
  {
    forall x ensures x in Insert(name, names) <==> x in names || x == name {
      assert x in Insert(name, names) <==> x in multiset(Insert(name, names));
    }
  }

  lemma {:induction false} InsertSorts(name: string, names: seq<string>)
    requires Sorted(names) && name !in names
    ensures Sorted(Insert(name, names))
  {
    if names != [] {
      LessIsTotal(name, names[0]);
      assert names[0] in names;
      if Less(name, names[0]) {
        forall j | 0 < j < |names| ensures Less(name, names[j]) { LessTransitive(name, names[0], names[j]); }
      } else {
        InsertSorts(name, names[1..]);
        InsertElements(name, names[1..]);
        BelowAll(names[0], Insert(name, names[1..]), names[1..], name);
      }
    }
  }

  lemma BelowAll(least: string, r: seq<string>, names: seq<string>, name: string)
    requires forall x :: x in r <==> x in names || x == name
    requires Less(least, name) && forall i :: 0 <= i < |names| ==> Less(least, names[i])
    ensures forall j :: 0 <= j < |r| ==> Less(least, r[j])
  {
    forall j | 0 <= j < |r| ensures Less(least, r[j]) { assert r[j] in r; }
  }

  /** A set of names has one sorted listing. */
  lemma {:induction false} SortedIsUnique(a: seq<string>, b: seq<string>)
    requires Sorted(a) && Sorted(b) && Elements(a) == Elements(b)
    ensures a == b
  {
    assert a != [] ==> a[0] in Elements(a);
    assert b != [] ==> b[0] in Elements(b);
    if a != [] && b != [] {
      HeadIsLeast(a, b);
      HeadIsLeast(b, a);
      LessIsTotal(a[0], b[0]);
      TailElements(a);
      TailElements(b);
      SortedIsUnique(a[1..], b[1..]);
      assert a == [a[0]] + a[1..] && b == [b[0]] + b[1..];
    }
  }

  lemma HeadIsLeast(a: seq<string>, b: seq<string>)
    requires Sorted(a) && a != [] && b != [] && b[0] in Elements(a)
    ensures a[0] == b[0] || Less(a[0], b[0])
  {
    var i :| 0 <= i < |a| && a[i] == b[0];
  }

  lemma TailElements(a: seq<string>)
    requires Sorted(a) && a != []
    ensures Elements(a[1..]) == Elements(a) - {a[0]}
  {
    LessIsTotal(a[0], a[0]);
    assert a == [a[0]] + a[1..];
    forall x | x in a[1..] ensures x != a[0] {
      var i :| 0 <= i < |a[1..]| && a[1..][i] == x;
      assert Less(a[0], a[i + 1]);
    }
  }

  // ----- The grouping -----

  /** The compose projects, sorted, each once. */
  function Projects(cs: seq<Container>): seq<string> {
    if cs == [] then []
    else
      var names, p := Projects(cs[..|cs| - 1]), cs[|cs| - 1].project;
      if p == "" || p in names then names else Insert(p, names)
  }

  /** The containers of a project in inspection order; those of "" stand alone. */
  function Members(cs: seq<Container>, project: string): (r: seq<Container>)
    ensures forall c :: c in r <==> c in cs && c.project == project
  {
    if cs == [] then []
    else
      var init, last := cs[..|cs| - 1], cs[|cs| - 1];
      assert cs == init + [last];
      Members(init, project) + if last.project == project then [last] else []
  }

  function FirstDir(cs: seq<Container>): string {
    if cs == [] then ""
    else if cs[0].workingDir != "" then cs[0].workingDir else FirstDir(cs[1..])
  }

  function FirstFiles(cs: seq<Container>): seq<string> {
    if cs == [] then []
    else if cs[0].configFiles != [] then cs[0].configFiles else FirstFiles(cs[1..])
  }

  function Lookup(running: map<string, bool>, name: string): bool {
    name in running && running[name]
  }

  function StateOf(cs: seq<Container>, running: map<string, bool>): map<string, bool> {
    map c | c in cs :: Name(c) := Lookup(running, Name(c))
  }

  /** A project takes its directory and its files from the first container that has them. */
  function GroupOf(project: string, cs: seq<Container>, running: map<string, bool>): Group {
    Group(project, FirstDir(cs), FirstFiles(cs), cs, StateOf(cs, running))
  }

  function Groups(cs: seq<Container>, running: map<string, bool>): (gs: seq<Group>)
    ensures |gs| == |Projects(cs)|
    ensures forall i :: 0 <= i < |gs| ==> gs[i] == GroupOf(Projects(cs)[i], Members(cs, Projects(cs)[i]), running)
  {
    var names := Projects(cs);
    seq(|names|, i requires 0 <= i < |names| => GroupOf(names[i], Members(cs, names[i]), running))
  }

  function Flatten(gs: seq<Group>): seq<Container> {
    if gs == [] then [] else Flatten(gs[..|gs| - 1]) + gs[|gs| - 1].containers
  }

  lemma {:induction false} ProjectsSorted(cs: seq<Container>)
    ensures Sorted(Projects(cs))
    ensures forall p :: p in Projects(cs) <==> p != "" && HasProject(cs, p)
  {
    if cs != [] {
      var init, p := cs[..|cs| - 1], cs[|cs| - 1].project;
      ProjectsSorted(init);
      forall q ensures HasProject(cs, q) <==> HasProject(init, q) || q == p { HasProjectLast(cs, q); }
      InsertElements(p, Projects(init));
      if p != "" && p !in Projects(init) { InsertSorts(p, Projects(init)); }
    }
  }

  predicate HasProject(cs: seq<Container>, p: string) { exists i :: 0 <= i < |cs| && cs[i].project == p }

  lemma HasProjectLast(cs: seq<Container>, q: string)
    requires cs != []
    ensures HasProject(cs, q) <==> HasProject(cs[..|cs| - 1], q) || q == cs[|cs| - 1].project
  {
    var init := cs[..|cs| - 1];
    assert forall i :: 0 <= i < |init| ==> init[i] == cs[i];
    if i :| 0 <= i < |init| && init[i].project == q { assert cs[i].project == q; }
    if i :| 0 <= i < |cs| && cs[i].project == q { assert i < |init| ==> init[i].project == q; }
  }

  /**
    Grouping is a partition: every group is non-empty, bears its own project's name and holds that
    project's containers; names rise strictly; standalone and grouped containers together are the
    inspected ones, with multiplicity.
   */
  lemma GroupingPartitions(cs: seq<Container>, running: map<string, bool>)
    ensures var gs := Groups(cs, running);
      && (forall i :: 0 <= i < |gs| ==> gs[i].name != "" && gs[i].containers != [])
      && (forall i, c :: 0 <= i < |gs| && c in gs[i].containers ==> c.project == gs[i].name)
      && (forall i, j :: 0 <= i < j < |gs| ==> Less(gs[i].name, gs[j].name))
      && (forall c <- Members(cs, "") :: c.project == "")
      && multiset(Members(cs, "")) + multiset(Flatten(gs)) == multiset(cs)
  {
    var gs, names := Groups(cs, running), Projects(cs);
    ProjectsSorted(cs);
    forall i | 0 <= i < |gs| ensures gs[i].name != "" && gs[i].containers != [] {
      assert names[i] in names;
      var k :| 0 <= k < |cs| && cs[k].project == names[i];
      assert cs[k] in Members(cs, names[i]);
    }
    forall c: Container ensures multiset(Members(cs, ""))[c] + multiset(Flatten(gs))[c] == multiset(cs)[c] {
      assert forall p <- names :: p != "";
      MembersCount(cs, "", c);
      FlattenCount(cs, running, gs, names, c);
      LessIsTotal(c.project, c.project);
      if c.project != "" && c in cs {
        var k :| 0 <= k < |cs| && cs[k] == c;
        assert HasProject(cs, c.project);
      } else if c !in cs {
        assert multiset(cs)[c] == 0;
      }
    }
  }

  lemma {:induction false} MembersCount(cs: seq<Container>, p: string, c: Container)
    ensures multiset(Members(cs, p))[c] == if c.project == p then multiset(cs)[c] else 0
  {
    if cs != [] {
      var init := cs[..|cs| - 1];
      MembersCount(init, p, c);
      assert cs == init + [cs[|cs| - 1]];
    }
  }

  lemma {:induction false} FlattenCount(cs: seq<Container>, running: map<string, bool>, gs: seq<Group>,
      names: seq<string>, c: Container)
    requires |gs| == |names| && Sorted(names)
    requires forall i :: 0 <= i < |gs| ==> gs[i] == GroupOf(names[i], Members(cs, names[i]), running)
    ensures multiset(Flatten(gs))[c] == if c.project in names then multiset(cs)[c] else 0
  {
    if gs != [] {
      var n := |gs| - 1;
      FlattenCount(cs, running, gs[..n], names[..n], c);
      MembersCount(cs, names[n], c);
      assert names == names[..n] + [names[n]];
      assert names[n] !in names[..n] by {
        forall i | 0 <= i < n ensures names[..n][i] != names[n] { LessIsTotal(names[i], names[n]); }
      }
    }
  }

  /** A group's directory and files are those of its first container that has any. */
  lemma {:induction false} FirstsAreFirst(cs: seq<Container>, i: nat)
    requires i < |cs|
    ensures cs[i].workingDir != "" && (forall j :: 0 <= j < i ==> cs[j].workingDir == "") ==>
        FirstDir(cs) == cs[i].workingDir
    ensures cs[i].configFiles != [] && (forall j :: 0 <= j < i ==> cs[j].configFiles == []) ==>
      FirstFiles(cs) == cs[i].configFiles
  {
    if i > 0 {
      FirstsAreFirst(cs[1..], i - 1);
      assert forall j :: 0 <= j < i - 1 ==> cs[1..][j] == cs[j + 1];
    }
  }

  // ----- The loop -----

  lemma {:induction false} FirstsOfAppend(cs: seq<Container>, c: Container)
    ensures FirstDir(cs + [c]) == if FirstDir(cs) == "" then c.workingDir else FirstDir(cs)
    ensures FirstFiles(cs + [c]) == if FirstFiles(cs) == [] then c.configFiles else FirstFiles(cs)
  {
    if cs == [] {
      assert [c][1..] == [];
    } else {
      FirstsOfAppend(cs[1..], c);
      assert (cs + [c])[1..] == cs[1..] + [c];
    }
  }

  /** One more container in a group. */
  function Extend(g: Group, c: Container, running: map<string, bool>): Group {
    Group(g.name,
      if g.workingDir == "" then c.workingDir else g.workingDir,
      if g.configFiles == [] then c.configFiles else g.configFiles,
      g.containers + [c],
      g.wasRunning[Name(c) := Lookup(running, Name(c))])
  }

  lemma ExtendGroupOf(project: string, cs: seq<Container>, c: Container, running: map<string, bool>)
    ensures Extend(GroupOf(project, cs, running), c, running) == GroupOf(project, cs + [c], running)
  {
    FirstsOfAppend(cs, c);
    StateOfAppend(cs, c, running);
  }

  lemma StateOfAppend(cs: seq<Container>, c: Container, running: map<string, bool>)
    ensures StateOf(cs + [c], running) == StateOf(cs, running)[Name(c) := Lookup(running, Name(c))]
  {
    var next := StateOf(cs, running)[Name(c) := Lookup(running, Name(c))];
    forall n ensures n in StateOf(cs + [c], running) <==> n in next {
      if d :| d in cs && Name(d) == n { assert d in cs + [c]; }
      assert c in cs + [c];
    }
  }

  function ProjectGroup(p: string, cs: seq<Container>, running: map<string, bool>): Group {
    GroupOf(p, Members(cs, p), running)
  }

  ghost predicate IsIndex(byProject: map<string, Group>, cs: seq<Container>, running: map<string, bool>) {
    && byProject.Keys == Elements(Projects(cs))
    && (forall p <- byProject :: byProject[p] == ProjectGroup(p, cs, running))
  }

  lemma MembersAreListed(cs: seq<Container>, p: string)
    requires p != "" && Members(cs, p) != []
    ensures p in Projects(cs)
  {
    ProjectsSorted(cs);
    var c := Members(cs, p)[0];
    assert c in Members(cs, p);
    var k :| 0 <= k < |cs| && cs[k] == c;
    assert HasProject(cs, p);
  }

  lemma ProjectsOfAppend(cs: seq<Container>, c: Container)
    ensures Elements(Projects(cs + [c])) == Elements(Projects(cs)) + if c.project == "" then {} else {c.project}
  {
    assert (cs + [c])[..|cs|] == cs;
    InsertElements(c.project, Projects(cs));
  }

  lemma MembersOfAppend(cs: seq<Container>, c: Container, p: string)
    ensures Members(cs + [c], p) == Members(cs, p) + if c.project == p then [c] else []
    ensures c.project != p ==> Members(cs + [c], p) == Members(cs, p)
  {
    assert (cs + [c])[..|cs|] == cs;
  }

  lemma OtherGroupsStay(cs: seq<Container>, c: Container, running: map<string, bool>)
    ensures forall p :: p != c.project ==> ProjectGroup(p, cs + [c], running) == ProjectGroup(p, cs, running)
  {
    forall p | p != c.project ensures ProjectGroup(p, cs + [c], running) == ProjectGroup(p, cs, running) {
      MembersOfAppend(cs, c, p);
    }
  }

  lemma SameIndex(byProject: map<string, Group>, cs: seq<Container>, next: seq<Container>, p: string,
      running: map<string, bool>)
    requires IsIndex(byProject, cs, running) && p !in byProject
    requires Elements(Projects(next)) == Elements(Projects(cs))
    requires forall q :: q != p ==> ProjectGroup(q, next, running) == ProjectGroup(q, cs, running)
    ensures IsIndex(byProject, next, running)
  {
  }

  lemma IndexSkip(byProject: map<string, Group>, cs: seq<Container>, c: Container, running: map<string, bool>)
    requires IsIndex(byProject, cs, running) && c.project == ""
    ensures IsIndex(byProject, cs + [c], running)
  {
    ProjectsOfAppend(cs, c);
    OtherGroupsStay(cs, c, running);
    assert "" !in byProject by { ProjectsSorted(cs); }
    SameIndex(byProject, cs, cs + [c], "", running);
  }

  function Opening(byProject: map<string, Group>, c: Container): Group {
    if c.project in byProject then byProject[c.project] else Group(c.project, c.workingDir, c.configFiles, [], map[])
  }

  lemma ExtendedGroup(byProject: map<string, Group>, cs: seq<Container>, c: Container, running: map<string, bool>)
    requires IsIndex(byProject, cs, running) && c.project != ""
    ensures Extend(Opening(byProject, c), c, running) == GroupOf(c.project, Members(cs, c.project) + [c], running)
  {
    var p := c.project;
    ExtendGroupOf(p, Members(cs, p), c, running);
    if p !in byProject {
      assert p !in Projects(cs);
      assert Members(cs, p) == [] by { if Members(cs, p) != [] { MembersAreListed(cs, p); } }
      assert GroupOf(p, [], running) == Group(p, "", [], [], map[]);
    }
  }

  lemma ReplaceEntry(byProject: map<string, Group>, cs: seq<Container>, next: seq<Container>, p: string,
      running: map<string, bool>)
    requires IsIndex(byProject, cs, running)
    requires Elements(Projects(next)) == Elements(Projects(cs)) + {p}
    requires forall q :: q != p ==> ProjectGroup(q, next, running) == ProjectGroup(q, cs, running)
    ensures IsIndex(byProject[p := ProjectGroup(p, next, running)], next, running)
  {
    var after := byProject[p := ProjectGroup(p, next, running)];
    assert after.Keys == byProject.Keys + {p};
    forall q <- after ensures after[q] == ProjectGroup(q, next, running) {}
  }

  lemma IndexStep(byProject: map<string, Group>, cs: seq<Container>, c: Container, running: map<string, bool>)
    requires IsIndex(byProject, cs, running) && c.project != ""
    ensures IsIndex(byProject[c.project := Extend(Opening(byProject, c), c, running)], cs + [c], running)
  {
    ProjectsOfAppend(cs, c);
    OtherGroupsStay(cs, c, running);
    ReplaceEntry(byProject, cs, cs + [c], c.project, running);
    ExtendedGroup(byProject, cs, c, running);
    MembersOfAppend(cs, c, c.project);
  }

  method IndexByProject(inspects: seq<Container>, running: map<string, bool>)
      returns (byProject: map<string, Group>, standalone: seq<Container>)
    ensures IsIndex(byProject, inspects, running)
    ensures standalone == Members(inspects, "")
  {
    byProject, standalone := map[], [];
    assert inspects[..0] == [];
    for i := 0 to |inspects|
      invariant standalone == Members(inspects[..i], "")
      invariant IsIndex(byProject, inspects[..i], running)
    {
      var c := inspects[i];
      assert inspects[..i + 1] == inspects[..i] + [c];
      MembersOfAppend(inspects[..i], c, "");
      if c.project == "" {
        IndexSkip(byProject, inspects[..i], c, running);
        standalone := standalone + [c];
        continue;
      }
      IndexStep(byProject, inspects[..i], c, running);
      var group := Opening(byProject, c);
      if group.workingDir == "" {
        group := group.(workingDir := c.workingDir);
      }
      if group.configFiles == [] {
        group := group.(configFiles := c.configFiles);
      }
      group := group.(containers := group.containers + [c],
                      wasRunning := group.wasRunning[Name(c) := Lookup(running, Name(c))]);
      byProject := byProject[c.project := group];
    }
    assert inspects[..|inspects|] == inspects;
  }

  method GroupContainersByComposeProject(inspects: seq<Container>, running: map<string, bool>)
      returns (groups: seq<Group>, standalone: seq<Container>)
    ensures groups == Groups(inspects, running)
    ensures standalone == Members(inspects, "")
  {
    var byProject;
    byProject, standalone := IndexByProject(inspects, running);
    var names := SortNames(byProject.Keys);
    ProjectsSorted(inspects);
    SortedIsUnique(names, Projects(inspects));
    groups := [];
    for i := 0 to |names|
      invariant groups == Groups(inspects, running)[..i]
    {
      assert names[i] in Elements(names);
      groups := groups + [byProject[names[i]]];
    }
  }

  /** The keys come in any order; sorting makes the outcome independent of it. */
  method SortNames(keys: set<string>) returns (names: seq<string>)
    ensures Sorted(names) && Elements(names) == keys
  {
    names := [];
    var left := keys;
    while left != {}
      invariant left <= keys && Sorted(names) && Elements(names) == keys - left
      decreases left
    {
      var name :| name in left;
      assert name !in Elements(names);
      InsertSorts(name, names);
      InsertElements(name, names);
      names := Insert(name, names);
      left := left - {name};
    }
  }
}
