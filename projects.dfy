/** The public projects page: the published projects as cards, the image
    and link choices on each card, the category filter and the polling test
    that decides when to re-render. */
module Projects {
  import opened Wrappers
  import opened Collections
  import opened Records
  import opened Storage

  /** "The project is published". */
  function IsPublished(): Project -> bool {
    (p: Project) => p.published
  }

  /** `projects.filter(project => project.published)`. */
  function PublishedProjects(s: seq<Project>): (r: seq<Project>)
    ensures |r| <= |s|
    ensures forall i :: 0 <= i < |r| ==> r[i] in s && r[i].published
    ensures forall i :: 0 <= i < |s| && s[i].published ==> s[i] in r
  {
    Filter(s, IsPublished())
  }

  /** Publishing is decided record by record, so the published list of a
      concatenation is the concatenation of the published lists: stored
      order is kept. */
  lemma PublishedOfConcat(a: seq<Project>, b: seq<Project>)
    ensures PublishedProjects(a + b) == PublishedProjects(a) + PublishedProjects(b)
  {
    FilterConcat(a, b, IsPublished());
  }

  /** A new project prepended to the store is shown first when it is
      published and not shown at all otherwise. */
  lemma PublishedAfterPrepend(p: Project, s: seq<Project>)
    ensures p.published ==> PublishedProjects([p] + s) == [p] + PublishedProjects(s)
    ensures !p.published ==> PublishedProjects([p] + s) == PublishedProjects(s)
  {
    FilterCons(p, s, IsPublished());
  }

  /** The six placeholder classes, in order. */
  const Gradients: seq<string> :=
    ["project-1", "project-2", "project-3", "project-4", "project-5", "project-6"]

  /** `getGradientClass(index)`. The index comes from `forEach`, so it is
      never negative. */
  function GradientClass(index: nat): (r: string)
    ensures r in Gradients
  {
    Gradients[index % |Gradients|]
  }

  /** The placeholder repeats every six cards and no sooner. */
  lemma GradientPeriod(i: nat, j: nat)
    ensures GradientClass(i + 6) == GradientClass(i)
    ensures i < j < i + 6 ==> GradientClass(i) != GradientClass(j)
  {
    if i < j < i + 6 {
      assert i % 6 != j % 6;
    }
  }

  /** What a card shows in its image slot. */
  datatype CardImage = StoredImage(src: string) | Placeholder(gradientClass: string)

  /** The card's image: the stored image when `project.image` is truthy, the
      gradient placeholder for its position otherwise. */
  function CardImageFor(p: Project, index: nat): (r: CardImage)
    ensures r.StoredImage? <==> TruthyField(p.image)
    ensures r.StoredImage? ==> Some(r.src) == p.image
    ensures r.Placeholder? ==> r.gradientClass == GradientClass(index)
  {
    if TruthyField(p.image) then StoredImage(p.image.value) else Placeholder(GradientClass(index))
  }

  /** One link icon on a card. */
  datatype Link = LiveLink(url: string) | GithubLink(url: string)

  /** The card's links block: absent when neither link is set, otherwise the
      live link (if set) followed by the GitHub link (if set). */
  function CardLinks(p: Project): (r: Option<seq<Link>>)
    ensures r.Some? <==> TruthyField(p.liveLink) || TruthyField(p.githubLink)
    ensures r.Some? ==> 1 <= |r.value| <= 2
    ensures r.Some? ==>
              |r.value| == (if TruthyField(p.liveLink) then 1 else 0) + (if TruthyField(p.githubLink) then 1 else 0)
    ensures r.Some? ==> (LiveLink(p.liveLink.GetOr([])) in r.value <==> TruthyField(p.liveLink))
    ensures r.Some? ==> (GithubLink(p.githubLink.GetOr([])) in r.value <==> TruthyField(p.githubLink))
    ensures r.Some? ==> forall i :: 0 <= i < |r.value| ==>
              (r.value[i].LiveLink? ==> i == 0) && (r.value[i].GithubLink? ==> i == |r.value| - 1)
  {
    if TruthyField(p.liveLink) || TruthyField(p.githubLink) then
      Some((if TruthyField(p.liveLink) then [LiveLink(p.liveLink.value)] else [])
           + (if TruthyField(p.githubLink) then [GithubLink(p.githubLink.value)] else []))
    else None
  }

  /** The parts of `createProjectCard` that depend on the record. */
  datatype Card = Card(
    category: string,
    title: string,
    description: string,
    tags: seq<string>,
    image: CardImage,
    links: Option<seq<Link>>)

  /** `createProjectCard(project, index)`. */
  function CardFor(p: Project, index: nat): (c: Card)
    ensures c.category == p.category && c.title == p.title && c.description == p.description
    ensures c.tags == p.tags
    ensures c.image == CardImageFor(p, index) && c.links == CardLinks(p)
  {
    Card(p.category, p.title, p.description, p.tags, CardImageFor(p, index), CardLinks(p))
  }

  /** The cards `loadProjects` appends: one per published project, in order,
      each numbered by its position among the published ones. */
  function Cards(s: seq<Project>): (r: seq<Card>)
    ensures |r| == |PublishedProjects(s)|
    ensures forall i :: 0 <= i < |r| ==> r[i] == CardFor(PublishedProjects(s)[i], i)
  {
    var published := PublishedProjects(s);
    seq(|published|, i requires 0 <= i < |published| => CardFor(published[i], i))
  }

  /** A card without a stored image takes the placeholder of its position
      among the published projects, so consecutive image-less cards show
      different gradients. */
  lemma CardsPlaceholders(s: seq<Project>, i: nat, j: nat)
    requires i < j < |Cards(s)| && j < i + 6
    requires Cards(s)[i].image.Placeholder? && Cards(s)[j].image.Placeholder?
    ensures Cards(s)[i].image != Cards(s)[j].image
  {
    GradientPeriod(i, j);
  }

  /** The filter buttons: a card is shown under `all` and under its own category. */
  predicate ShownUnder(filter: string, category: string) {
    filter == "all" || category == filter
  }

  /** "The card is shown under `filter`". */
  function IsShown(filter: string): Card -> bool {
    (c: Card) => ShownUnder(filter, c.category)
  }

  /** The cards a filter button leaves displayed, in grid order: the
      `projectCards.forEach` that shows or hides each card. */
  function VisibleCards(cards: seq<Card>, filter: string): seq<Card> {
    Filter(cards, IsShown(filter))
  }

  /** The cards of those projects in `ps` whose category is `category`, each
      rendered at its position `start + i` in the grid. */
  function CardsOfCategory(ps: seq<Project>, start: nat, category: string): (r: seq<Card>)
    ensures |r| <= |ps|
    decreases |ps|
  {
    if ps == [] then []
    else (if ps[0].category == category then [CardFor(ps[0], start)] else [])
         + CardsOfCategory(ps[1..], start + 1, category)
  }

  /** The grid built from `ps` when its first card sits at position `start`. */
  function CardsFrom(ps: seq<Project>, start: nat): (r: seq<Card>)
    ensures |r| == |ps|
    ensures forall i :: 0 <= i < |ps| ==> r[i] == CardFor(ps[i], start + i)
  {
    seq(|ps|, i requires 0 <= i < |ps| => CardFor(ps[i], start + i))
  }

  /** Under `all` every card of the grid stays visible; under any other
      filter exactly the cards of the published projects of that category
      stay visible, in stored order and with the placeholders of their
      positions in the full grid. */
  lemma FilterShowsCategory(s: seq<Project>, filter: string)
    ensures filter == "all" ==> VisibleCards(Cards(s), filter) == Cards(s)
    ensures filter != "all" ==>
              VisibleCards(Cards(s), filter) == CardsOfCategory(PublishedProjects(s), 0, filter)
  {
    var ps := PublishedProjects(s);
    assert Cards(s) == CardsFrom(ps, 0);
    if filter == "all" {
      FilterKeepsAll(Cards(s), IsShown(filter));
    } else {
      VisibleFrom(ps, 0, filter);
    }
  }

  lemma {:induction false} VisibleFrom(ps: seq<Project>, start: nat, filter: string)
    requires filter != "all"
    ensures Filter(CardsFrom(ps, start), IsShown(filter)) == CardsOfCategory(ps, start, filter)
    decreases |ps|
  {
    if ps != [] {
      var h, rest := CardFor(ps[0], start), CardsFrom(ps[1..], start + 1);
      CardsFromCons(ps, start);
      FilterCons(h, rest, IsShown(filter));
      assert IsShown(filter)(h) == (ps[0].category == filter);
      VisibleFrom(ps[1..], start + 1, filter);
    }
  }

  lemma CardsFromCons(ps: seq<Project>, start: nat)
    requires ps != []
    ensures CardsFrom(ps, start) == [CardFor(ps[0], start)] + CardsFrom(ps[1..], start + 1)
  {
    var r := [CardFor(ps[0], start)] + CardsFrom(ps[1..], start + 1);
    forall i | 0 <= i < |ps| ensures CardsFrom(ps, start)[i] == r[i] {
      if i > 0 {
        assert r[i] == CardsFrom(ps[1..], start + 1)[i - 1];
      }
    }
  }

  // ----- Re-rendering -----

  /** The cards in the grid after `loadProjects`, as written: with no
      published project the function returns before clearing the grid, so
      the cards of the previous render stay in the document (hidden). */
  function GridAfterLoad(grid: seq<Card>, s: seq<Project>): (r: seq<Card>)
    ensures PublishedProjects(s) != [] ==> r == Cards(s)
    ensures PublishedProjects(s) == [] ==> r == grid
  {
    if |PublishedProjects(s)| == 0 then grid else Cards(s)
  }

  /** The once-a-second poll: reload iff the number of cards in the grid
      differs from the number of published projects. */
  predicate ShouldReloadProjects(grid: seq<Card>, s: seq<Project>): (r: bool)
    ensures r <==> |grid| != |Cards(s)|
  {
    |grid| != |PublishedProjects(s)|
  }

  /** One tick of the `setInterval` poll: reload the grid from the store
      when its card count differs from the number of published projects.
      Afterwards the counts agree, unless nothing is published and the
      early return of `loadProjects` left the old cards in place. */
  method PollProjects(st: LocalStorage, grid: seq<Card>) returns (r: seq<Card>)
    ensures ShouldReloadProjects(grid, st.Projects()) ==> r == GridAfterLoad(grid, st.Projects())
    ensures !ShouldReloadProjects(grid, st.Projects()) ==> r == grid
    ensures !ShouldReloadProjects(r, st.Projects()) || (PublishedProjects(st.Projects()) == [] && r == grid)
  {
    var projects := st.Projects();
    if |grid| != |PublishedProjects(projects)| {
      r := GridAfterLoad(grid, projects);
    } else {
      r := grid;
    }
  }

  /** Right after a render with something published, the poll is quiet. */
  lemma NoReloadAfterRender(grid: seq<Card>, s: seq<Project>)
    requires PublishedProjects(s) != []
    ensures !ShouldReloadProjects(GridAfterLoad(grid, s), s)
  {
  }

  /** As written, unpublishing or deleting the last published project
      leaves the old cards counted, so the poll asks for a reload, and the
      reload changes nothing: it fires every second from then on. */
  lemma StaleGridReloadsForever(grid: seq<Card>, s: seq<Project>)
    requires grid != [] && PublishedProjects(s) == []
    ensures ShouldReloadProjects(GridAfterLoad(grid, s), s)
    ensures GridAfterLoad(GridAfterLoad(grid, s), s) == GridAfterLoad(grid, s)
  {
  }

  /** A concrete case: one published project is rendered, then unpublished. */
  lemma StaleGridExample(p: Project)
    requires p.published
    ensures var rendered := GridAfterLoad([], [p]);
            var after := GridAfterLoad(rendered, [p.(published := false)]);
            |rendered| == 1 && ShouldReloadProjects(after, [p.(published := false)])
  {
    PublishedAfterPrepend(p, []);
    PublishedAfterPrepend(p.(published := false), []);
    assert [p] == [p] + [];
    assert [p.(published := false)] == [p.(published := false)] + [];
  }

  /** The grid after a load that also clears it when nothing is
      published: the poll is then quiet after every render. */
  function GridAfterLoadCleared(grid: seq<Card>, s: seq<Project>): (r: seq<Card>)
    ensures r == Cards(s)
    ensures !ShouldReloadProjects(r, s)
  {
    if |PublishedProjects(s)| == 0 then [] else Cards(s)
  }

  /** Adding a published project to a settled page triggers a reload;
      adding an unpublished one does not. */
  lemma ReloadOnNewProject(grid: seq<Card>, p: Project, s: seq<Project>)
    requires !ShouldReloadProjects(grid, s)
    ensures p.published ==> ShouldReloadProjects(grid, [p] + s)
    ensures !p.published ==> !ShouldReloadProjects(grid, [p] + s)
  {
    PublishedAfterPrepend(p, s);
  }
}
