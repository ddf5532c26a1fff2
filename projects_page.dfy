/**
 * The page that lists all projects: the search box's filter over the loaded
 * projects and the URL of each card's cover image.
 */
module ProjectsPage {
  import opened Wrappers
  import opened JsText

  /** The author of a project as the page receives it. */
  datatype Author = Author(username: string)

  /** The fields of a project that the page reads. */
  datatype ProjectCard = ProjectCard(id: string, title: string, description: string, author: Author,
                                     coverPhoto: Option<string>)

  /** The search keeps a project when the lower-cased term occurs in its
      lower-cased title, description or author's username. */
  predicate Matches(term: string, p: ProjectCard) {
    var t := Lower(term);
    Includes(Lower(p.title), t) || Includes(Lower(p.description), t) || Includes(Lower(p.author.username), t)
  }

  /** The projects `filterProjects` shows for `term`. */
  function Filtered(projects: seq<ProjectCard>, term: string): (shown: seq<ProjectCard>)
    ensures IsBlank(term) ==> shown == projects
    ensures |shown| <= |projects|
    ensures forall p :: p in shown <==> p in projects && (IsBlank(term) || Matches(term, p))
    ensures forall p :: !IsBlank(term) ==> multiset(shown)[p] == if Matches(term, p) then multiset(projects)[p] else 0
  {
    TrimEmptyIffBlank(term);
    if Trim(term) == "" then projects else Filter(projects, (p: ProjectCard) => Matches(term, p))
  }

  lemma {:induction false} SubsequenceOfItself<T>(s: seq<T>)
    ensures IsSubsequence(s, s)
  {
    if s != [] {
      SubsequenceOfItself(s[1..]);
    }
  }

  /** The shown projects keep the order they were loaded in. */
  lemma FilteredKeepsOrder(projects: seq<ProjectCard>, term: string)
    ensures IsSubsequence(Filtered(projects, term), projects)
  {
    TrimEmptyIffBlank(term);
    if IsBlank(term) {
      SubsequenceOfItself(projects);
    } else {
      FilterIsSubsequence(projects, (p: ProjectCard) => Matches(term, p));
    }
  }

  /** Lower-casing twice is lower-casing once. */
  lemma LowerIdempotent(s: string)
    ensures Lower(Lower(s)) == Lower(s)
  {
  }

  /** The search ignores the case of the term. */
  lemma SearchIgnoresCase(projects: seq<ProjectCard>, term: string)
    requires !IsBlank(term)
    ensures forall p :: Matches(Lower(term), p) <==> Matches(term, p)
  {
    LowerIdempotent(term);
  }

  /** Only the blank test trims: a term that is not blank but holds a space
      that no field holds hides every project, even where the term without
      that space would match. */
  lemma UntrimmedTermMatched(projects: seq<ProjectCard>, term: string, c: char)
    requires !IsBlank(term) && IsSpace(c) && c in term
    requires forall p :: p in projects ==> c !in p.title && c !in p.description && c !in p.author.username
    ensures Filtered(projects, term) == []
  {
    assert Lower(term)[IndexOf(term, c)] == c;
    forall p | p in projects ensures !Matches(term, p) {
      assert c !in Lower(p.title) && c !in Lower(p.description) && c !in Lower(p.author.username);
      MissingCharNotIncluded(Lower(p.title), Lower(term), c);
      MissingCharNotIncluded(Lower(p.description), Lower(term), c);
      MissingCharNotIncluded(Lower(p.author.username), Lower(term), c);
    }
  }

  const Placeholder := "/placeholder.svg?height=200&width=300"
  const ServerRoot := "http://localhost:3000/"

  /** `getImageUrl`: the placeholder for a missing or empty path, otherwise
      the path below the server's root. */
  function GetImageUrl(path: Option<string>): (url: string)
    ensures !IsTruthy(path) ==> url == Placeholder
    ensures IsTruthy(path) ==> |url| > |ServerRoot| && url[..|ServerRoot|] == ServerRoot && url[|ServerRoot|..] == path.value
  {
    if !IsTruthy(path) then Placeholder else ServerRoot + path.value
  }

  /** The component's state. */
  class ProjectsComponent {
    var projects: seq<ProjectCard>
    var filteredProjects: seq<ProjectCard>
    var loading: bool
    var searchTerm: string

    constructor ()
      ensures projects == [] && filteredProjects == [] && loading && searchTerm == ""
    {
      projects := [];
      filteredProjects := [];
      loading := true;
      searchTerm := "";
    }

    /** `loadProjects` once the request has answered: `response` is the list
        received, or None when the request failed. */
    method LoadProjects(response: Option<seq<ProjectCard>>)
      modifies this`projects, this`filteredProjects, this`loading
      ensures !loading
      ensures response.Some? ==> projects == response.value && filteredProjects == response.value
      ensures response.None? ==> projects == old(projects) && filteredProjects == old(filteredProjects)
    {
      if response.Some? {
        projects := response.value;
        filteredProjects := response.value;
      }
      loading := false;
    }

    /** `filterProjects`; `projects` is left as it is. */
    method FilterProjects()
      modifies this`filteredProjects
      ensures filteredProjects == Filtered(projects, searchTerm)
    {
      if Trim(searchTerm) == "" {
        filteredProjects := projects;
        return;
      }
      var term := searchTerm;
      filteredProjects := Filter(projects, (p: ProjectCard) => Matches(term, p));
    }
  }
}
