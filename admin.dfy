/** The admin page: project, skill, message and review management over the
    record store, plus the image pre-checks and the display-name lookup.
    Every handler re-reads its collection, changes the copy and writes the
    whole array back; `confirm()` dialogs are taken as confirmed. */
module Admin {
  import opened Wrappers
  import opened JsText
  import opened Collections
  import opened Records
  import opened Storage
  import Reviews

  // ----- Image upload pre-checks -----

  /** The largest accepted image, 5 MB. */
  const MaxImageBytes: int := 5 * 1024 * 1024

  /** What the upload handler sees of a chosen file. */
  datatype ImageFile = ImageFile(size: int, mimeType: string)

  /** The three rejections of `convertImageToBase64`, checked in this order. */
  datatype ImageError = NoFileSelected | TooLarge | UnsupportedType {
    function Message(): string {
      match this
      case NoFileSelected => "No file selected"
      case TooLarge => "Image size must be less than 5MB"
      case UnsupportedType => "Only PNG and JPG images are allowed"
    }
  }

  /** `p` occurs somewhere in `s`. */
  predicate Contains(s: string, p: string)
    decreases |s|
  {
    p <= s || (s != [] && Contains(s[1..], p))
  }

  /** `p` sits in `s` starting at index `i`. */
  predicate OccursAt(s: string, p: string, i: int) {
    0 <= i <= |s| - |p| && s[i..i + |p|] == p
  }

  /** The recursive search agrees with "some window of `s` equals `p`". */
  lemma {:induction false} ContainsIffInfix(s: string, p: string)
    ensures Contains(s, p) <==> exists i :: OccursAt(s, p, i)
    decreases |s|
  {
    if p <= s {
      assert OccursAt(s, p, 0);
    } else if s != [] {
      ContainsIffInfix(s[1..], p);
      if Contains(s[1..], p) {
        var i :| OccursAt(s[1..], p, i);
        OccursInTail(s, p, i);
      }
      if exists i :: OccursAt(s, p, i) {
        var i :| OccursAt(s, p, i);
        assert i != 0;
        OccursPastHead(s, p, i);
      }
    }
  }

  /** A window of the tail is a window of the whole string, one further on. */
  lemma OccursInTail(s: string, p: string, i: int)
    requires s != [] && OccursAt(s[1..], p, i)
    ensures OccursAt(s, p, i + 1)
  {
    assert s[1..][i..i + |p|] == s[i + 1..i + 1 + |p|];
  }

  /** A window past the first character is a window of the tail. */
  lemma OccursPastHead(s: string, p: string, i: int)
    requires OccursAt(s, p, i) && i != 0
    ensures OccursAt(s[1..], p, i - 1)
  {
    assert s[1..][i - 1..i - 1 + |p|] == s[i..i + |p|];
  }

  /** `file.type.match('image/(png|jpeg|jpg)')`: an unanchored search. */
  predicate TypeAllowed(mimeType: string) {
    Contains(mimeType, "image/png") || Contains(mimeType, "image/jpeg") || Contains(mimeType, "image/jpg")
  }

  /** The checks `convertImageToBase64` makes before reading the file: no
      file first, then the size, then the type. */
  function ImageCheck(file: Option<ImageFile>): (r: Outcome<ImageError>)
    ensures r == Fail(NoFileSelected) <==> file.None?
    ensures r == Fail(TooLarge) <==> file.Some? && file.value.size > MaxImageBytes
    ensures r == Fail(UnsupportedType) <==>
              file.Some? && file.value.size <= MaxImageBytes && !TypeAllowed(file.value.mimeType)
    ensures r == Pass <==>
              file.Some? && file.value.size <= MaxImageBytes && TypeAllowed(file.value.mimeType)
  {
    match file
    case None => Fail(NoFileSelected)
    case Some(f) =>
      if f.size > MaxImageBytes then Fail(TooLarge)
      else if !TypeAllowed(f.mimeType) then Fail(UnsupportedType)
      else Pass
  }

  // ----- Projects -----

  /** The project form's fields as `FormData.get` returns them; `published`
      is the checkbox, `"on"` when ticked and absent otherwise. */
  datatype ProjectForm = ProjectForm(
    title: string,
    description: string,
    category: string,
    tags: string,
    liveLink: string,
    githubLink: string,
    published: Option<string>)

  const ImageRequiredMessage: string :=
    "Image is required for Social Media projects! Please upload an image."

  /** `tags.split(',').map(tag => tag.trim())`. */
  function Tags(input: string): (r: seq<string>)
    ensures |r| == Occurrences(input, ',') + 1
    ensures forall i :: 0 <= i < |r| ==> r[i] == Trim(Split(input, ',')[i])
    ensures forall i :: 0 <= i < |r| ==> IsTrimmed(r[i]) && ',' !in r[i]
  {
    var pieces := Split(input, ',');
    forall i | 0 <= i < |pieces| ensures ',' !in Trim(pieces[i]) {
      TrimKeepsNonWhitespace(pieces[i], ',');
    }
    Map(pieces, Trim)
  }

  /** The tags field as `editProject` refills it: `tags.join(', ')`. */
  function TagsText(tags: seq<string>): string {
    Join(tags, ", ")
  }

  /** A leading space is trimmed away from the first tag. */
  lemma TagsOfSpaced(s: string)
    ensures Tags([' '] + s) == Tags(s)
  {
    var pieces := Split(s, ',');
    var h, t := pieces[0], pieces[1..];
    assert Split([' '] + s, ',') == [[' '] + h] + t by {
      assert ([' '] + s)[1..] == s;
    }
    assert Tags([' '] + s) == [Trim([' '] + h)] + Map(t, Trim) by {
      MapCons([' '] + h, t, Trim);
    }
    assert Tags(s) == [Trim(h)] + Map(t, Trim) by {
      assert pieces == [h] + t;
      MapCons(h, t, Trim);
    }
    TrimSpaced(h);
  }

  /** The text before the first comma is the first tag. */
  lemma TagsOfPrefix(a: string, b: string)
    requires ',' !in a
    ensures Tags(a + [','] + b) == [Trim(a)] + Tags(b)
  {
    SplitPrefix(a, b, ',');
    MapCons(a, Split(b, ','), Trim);
  }

  /** A single trimmed, comma-free tag survives the refill and re-split. */
  lemma TagsTextSingle(t: string)
    requires IsTrimmed(t) && ',' !in t
    ensures Tags(TagsText([t])) == [t]
  {
    assert TagsText([t]) == t;
    SplitSeparatorFree(t, ',');
    assert Map([t], Trim)[0] == Trim(t);
    TrimOfTrimmed(t);
  }

  /** The first of several tags is re-split off ahead of the others. */
  lemma TagsTextCons(t: string, later: seq<string>)
    requires later != []
    requires IsTrimmed(t) && ',' !in t
    ensures Tags(TagsText([t] + later)) == [t] + Tags(TagsText(later))
  {
    var rest := TagsText(later);
    var text := t + [','] + ([' '] + rest);
    assert TagsText([t] + later) == text by {
      assert ([t] + later)[1..] == later;
    }
    assert Tags(text) == [Trim(t)] + Tags([' '] + rest) by {
      TagsOfPrefix(t, [' '] + rest);
    }
    TagsOfSpaced(rest);
    TrimOfTrimmed(t);
  }

  /** Refilling the form with trimmed, comma-free tags and submitting it
      again gives back the same tags. */
  lemma {:induction false} TagsTextRoundTrip(tags: seq<string>)
    requires tags != []
    requires forall i :: 0 <= i < |tags| ==> IsTrimmed(tags[i]) && ',' !in tags[i]
    ensures Tags(TagsText(tags)) == tags
  {
    var t, later := tags[0], tags[1..];
    assert tags == [t] + later;
    if later == [] {
      TagsTextSingle(t);
    } else {
      forall i | 0 <= i < |later| ensures IsTrimmed(later[i]) && ',' !in later[i] {
        assert later[i] == tags[i + 1];
      }
      TagsTextRoundTrip(later);
      TagsTextCons(t, later);
    }
  }

  /** Editing a project and submitting the form unchanged keeps its tags:
      the tags the form produced survive the join and the re-split. */
  lemma ResubmitKeepsTags(input: string)
    ensures Tags(TagsText(Tags(input))) == Tags(input)
  {
    TagsTextRoundTrip(Tags(input));
  }

  /** `x || null` for a string. */
  function OrNull(s: string): (r: Option<string>)
    ensures r.Some? <==> s != []
    ensures r.Some? ==> r.value == s
  {
    if s == [] then None else Some(s)
  }

  /** The record `handleProjectSubmit` builds from the form. */
  function NewProject(form: ProjectForm, image: Option<string>, id: string, dateAdded: string): (p: Project)
    ensures p.id == id && p.category == form.category && p.dateAdded == dateAdded
    ensures p.title == form.title && p.description == form.description
    ensures p.tags == Tags(form.tags)
    ensures p.image.Some? <==> TruthyField(image)
    ensures p.image == (if TruthyField(image) then image else None)
    ensures p.liveLink.Some? <==> form.liveLink != []
    ensures p.githubLink.Some? <==> form.githubLink != []
    ensures p.liveLink == OrNull(form.liveLink) && p.githubLink == OrNull(form.githubLink)
    ensures p.published <==> form.published == Some("on")
  {
    Project(
      id, form.title, form.description, form.category, Tags(form.tags),
      if TruthyField(image) then image else None,
      OrNull(form.liveLink), OrNull(form.githubLink),
      form.published == Some("on"), dateAdded)
  }

  /** The stated invariant of the project collection: a social-media project carries an image. */
  ghost predicate SocialProjectsHaveImages(s: seq<Project>) {
    forall i :: 0 <= i < |s| && s[i].category == "social" ==> TruthyField(s[i].image)
  }

  /** The project form's submit handler. A social-media project without an
      image is refused before storage is touched; any other project is
      prepended to the stored array. `image` is the hidden input's value
      (`None` when that input does not exist). */
  method SubmitProject(st: LocalStorage, form: ProjectForm, image: Option<string>, id: string, dateAdded: string)
    returns (outcome: Outcome<string>)
    modifies st`projects, st`writes
    ensures form.category == "social" && !TruthyField(image) ==>
              outcome == Fail(ImageRequiredMessage)
              && st.projects == old(st.projects) && st.writes == old(st.writes)
    ensures !(form.category == "social" && !TruthyField(image)) ==>
              outcome == Pass
              && st.projects == Some([NewProject(form, image, id, dateAdded)] + old(st.Projects()))
              && st.writes == old(st.writes) + [ProjectsKey]
    ensures SocialProjectsHaveImages(old(st.Projects())) ==> SocialProjectsHaveImages(st.Projects())
  {
    if form.category == "social" && !TruthyField(image) {
      return Fail(ImageRequiredMessage);
    }
    var project := NewProject(form, image, id, dateAdded);
    var projects := st.Projects();
    projects := [project] + projects;
    st.SaveProjects(projects);
    outcome := Pass;
  }

  /** The stored array after `togglePublish(id)`: the first project with that
      id has `published` negated; nothing else changes. */
  function Toggled(s: seq<Project>, id: string): (r: seq<Project>)
    ensures |r| == |s|
    ensures forall j :: 0 <= j < |s| ==> r[j].(published := s[j].published) == s[j]
    ensures forall j :: 0 <= j < |s| && r[j].published != s[j].published ==> FindById(s, id, ProjectId) == Some(j)
    ensures FindById(s, id, ProjectId).Some? ==>
              var i := FindById(s, id, ProjectId).value; r[i].published == !s[i].published
  {
    match FindById(s, id, ProjectId)
    case None => s
    case Some(i) => s[i := s[i].(published := !s[i].published)]
  }

  /** Toggling twice restores the array. */
  lemma ToggledTwice(s: seq<Project>, id: string)
    ensures Toggled(Toggled(s, id), id) == s
  {
    var t := Toggled(s, id);
    FindByIdSameIds(s, t, id, ProjectId);
    assert forall j :: 0 <= j < |s| ==> t[j].id == s[j].id by {
      forall j | 0 <= j < |s| ensures t[j].id == s[j].id {
        assert t[j].(published := s[j].published) == s[j];
      }
    }
  }

  /** `togglePublish(id)`: flips the first project with that id and writes;
      when no project has that id, nothing is written. */
  method TogglePublish(st: LocalStorage, id: string) returns (found: bool)
    modifies st`projects, st`writes
    ensures found <==> exists j :: 0 <= j < |old(st.Projects())| && old(st.Projects())[j].id == id
    ensures found ==> st.projects == Some(Toggled(old(st.Projects()), id))
                      && st.writes == old(st.writes) + [ProjectsKey]
    ensures !found ==> st.projects == old(st.projects) && st.writes == old(st.writes)
    ensures SocialProjectsHaveImages(old(st.Projects())) ==> SocialProjectsHaveImages(st.Projects())
  {
    var projects := st.Projects();
    var index := FindById(projects, id, ProjectId);
    found := index.Some?;
    if found {
      var i := index.value;
      projects := projects[i := projects[i].(published := !projects[i].published)];
      st.SaveProjects(projects);
    }
  }

  /** `deleteProject(id)`: writes back every project whose id differs, in order. */
  method DeleteProject(st: LocalStorage, id: string)
    modifies st`projects, st`writes
    ensures st.projects == Some(RemoveById(old(st.Projects()), id, ProjectId))
    ensures st.writes == old(st.writes) + [ProjectsKey]
    ensures forall j :: 0 <= j < |st.Projects()| ==> st.Projects()[j].id != id
    ensures SocialProjectsHaveImages(old(st.Projects())) ==> SocialProjectsHaveImages(st.Projects())
  {
    var projects := st.Projects();
    st.SaveProjects(RemoveById(projects, id, ProjectId));
  }

  /** `editProject(id)`: the project is handed to the form and removed from
      storage, to be added again when the form is resubmitted. Nothing is
      written when no project has that id. */
  method EditProject(st: LocalStorage, id: string) returns (loaded: Option<Project>)
    modifies st`projects, st`writes
    ensures loaded.Some? <==> exists j :: 0 <= j < |old(st.Projects())| && old(st.Projects())[j].id == id
    ensures loaded.Some? ==> loaded.value in old(st.Projects()) && loaded.value.id == id
    ensures loaded.Some? ==>
              FindById(old(st.Projects()), id, ProjectId).Some?
              && loaded.value == old(st.Projects())[FindById(old(st.Projects()), id, ProjectId).value]
    ensures loaded.Some? ==> st.projects == Some(RemoveById(old(st.Projects()), id, ProjectId))
                             && st.writes == old(st.writes) + [ProjectsKey]
    ensures loaded.None? ==> st.projects == old(st.projects) && st.writes == old(st.writes)
    ensures SocialProjectsHaveImages(old(st.Projects())) ==> SocialProjectsHaveImages(st.Projects())
  {
    var projects := st.Projects();
    var index := FindById(projects, id, ProjectId);
    if index.None? {
      return None;
    }
    loaded := Some(projects[index.value]);
    st.SaveProjects(RemoveById(projects, id, ProjectId));
  }

  /** The display names of the project categories. */
  const CategoryNames: map<string, string> :=
    map["web" := "Web Design", "app" := "Web App", "mobile" := "Mobile", "social" := "Social Media"]

  /** `getCategoryName(category)`: the display name of a known category,
      the category itself otherwise (`categories[category] || category`). */
  function GetCategoryName(category: string): (r: string)
    ensures category in CategoryNames ==> r == CategoryNames[category]
    ensures category !in CategoryNames ==> r == category
    ensures r == [] <==> category == []
  {
    if category in CategoryNames then CategoryNames[category] else category
  }

  // ----- Skills -----

  /** The skill form's fields; `percentage` is the result of `parseInt`. */
  datatype SkillForm = SkillForm(name: string, category: string, percentage: int, icon: string)

  const DefaultIcon: string := "fas fa-code"

  /** `formData.get('icon') ? formData.get('icon').trim() : 'fas fa-code'`. */
  function SkillIcon(input: string): (r: string)
    ensures input == [] ==> r == DefaultIcon
    ensures input != [] ==> r == Trim(input)
    ensures IsTrimmed(r)
  {
    if Truthy(input) then Trim(input) else DefaultIcon
  }

  /** The record the skill form builds. */
  function NewSkill(form: SkillForm, id: string): (s: Skill)
    ensures s.id == id && s.name == form.name && s.category == form.category
    ensures s.percentage == form.percentage && s.icon == SkillIcon(form.icon)
  {
    Skill(id, form.name, form.category, form.percentage, SkillIcon(form.icon))
  }

  /** The skill form's submit handler: appends the new skill at the end. */
  method SubmitSkill(st: LocalStorage, form: SkillForm, id: string)
    modifies st`skills, st`writes
    ensures st.skills == Some(old(st.Skills()) + [NewSkill(form, id)])
    ensures st.writes == old(st.writes) + [SkillsKey]
  {
    var skills := st.Skills();
    skills := skills + [NewSkill(form, id)];
    st.SaveSkills(skills);
  }

  /** `editSkill(id)`: hands the skill to the form and removes it from
      storage; nothing is written when no skill has that id. */
  method EditSkill(st: LocalStorage, id: string) returns (loaded: Option<Skill>)
    modifies st`skills, st`writes
    ensures loaded.Some? <==> exists j :: 0 <= j < |old(st.Skills())| && old(st.Skills())[j].id == id
    ensures loaded.Some? ==> loaded.value in old(st.Skills()) && loaded.value.id == id
    ensures loaded.Some? ==>
              FindById(old(st.Skills()), id, SkillId).Some?
              && loaded.value == old(st.Skills())[FindById(old(st.Skills()), id, SkillId).value]
    ensures loaded.Some? ==> st.skills == Some(RemoveById(old(st.Skills()), id, SkillId))
                             && st.writes == old(st.writes) + [SkillsKey]
    ensures loaded.None? ==> st.skills == old(st.skills) && st.writes == old(st.writes)
  {
    var skills := st.Skills();
    var index := FindById(skills, id, SkillId);
    if index.None? {
      return None;
    }
    loaded := Some(skills[index.value]);
    st.SaveSkills(RemoveById(skills, id, SkillId));
  }

  /** `deleteSkill(id)`: writes back every skill whose id differs, in order. */
  method DeleteSkill(st: LocalStorage, id: string)
    modifies st`skills, st`writes
    ensures st.skills == Some(RemoveById(old(st.Skills()), id, SkillId))
    ensures st.writes == old(st.writes) + [SkillsKey]
  {
    var skills := st.Skills();
    st.SaveSkills(RemoveById(skills, id, SkillId));
  }

  // ----- Contact messages -----

  /** Every message with `read` set. */
  function AllRead(s: seq<ContactMessage>): (r: seq<ContactMessage>)
    ensures |r| == |s|
    ensures forall i :: 0 <= i < |s| ==> r[i].read && r[i].(read := s[i].read) == s[i]
  {
    seq(|s|, i requires 0 <= i < |s| => s[i].(read := true))
  }

  /** Marking everything read leaves the array as it was exactly when no
      message was unread. */
  lemma AllReadUnchangedIffNoneUnread(s: seq<ContactMessage>)
    ensures AllRead(s) == s <==> forall i :: 0 <= i < |s| ==> s[i].read
  {
    if forall i :: 0 <= i < |s| ==> s[i].read {
      assert forall i :: 0 <= i < |s| ==> AllRead(s)[i] == s[i];
    }
  }

  /** The `messages.map(...)` loop of `loadContactMessages`: sets `read` on
      every message and reports through `updated` whether any was unread. */
  method MarkAllRead(messages: seq<ContactMessage>) returns (marked: seq<ContactMessage>, updated: bool)
    ensures marked == AllRead(messages)
    ensures updated <==> exists i :: 0 <= i < |messages| && !messages[i].read
  {
    marked := [];
    updated := false;
    for i := 0 to |messages|
      invariant |marked| == i
      invariant forall j :: 0 <= j < i ==> marked[j] == messages[j].(read := true)
      invariant updated <==> exists j :: 0 <= j < i && !messages[j].read
    {
      var msg := messages[i];
      if !msg.read {
        msg := msg.(read := true);
        updated := true;
      }
      marked := marked + [msg];
    }
  }

  /** `loadContactMessages()` up to its rendering: every message is shown
      as read, and storage is written only if some message was unread. */
  method LoadContactMessages(st: LocalStorage) returns (shown: seq<ContactMessage>)
    modifies st`messages, st`writes
    ensures shown == AllRead(old(st.Messages()))
    ensures st.Messages() == shown
    ensures (exists i :: 0 <= i < |old(st.Messages())| && !old(st.Messages())[i].read) ==>
              st.messages == Some(shown) && st.writes == old(st.writes) + [MessagesKey]
    ensures (forall i :: 0 <= i < |old(st.Messages())| ==> old(st.Messages())[i].read) ==>
              st.messages == old(st.messages) && st.writes == old(st.writes)
  {
    var messages := st.Messages();
    var updated;
    shown, updated := MarkAllRead(messages);
    if updated {
      st.SaveMessages(shown);
    } else {
      AllReadUnchangedIffNoneUnread(messages);
    }
  }

  /** `deleteMessage(id)`: writes back every other message, then reloads the
      list (which marks them all read). */
  method DeleteMessage(st: LocalStorage, id: string) returns (shown: seq<ContactMessage>)
    modifies st`messages, st`writes
    ensures shown == AllRead(RemoveById(old(st.Messages()), id, MessageId))
    ensures st.messages == Some(shown)
    ensures var rest := RemoveById(old(st.Messages()), id, MessageId);
            (exists i :: 0 <= i < |rest| && !rest[i].read) ==>
              st.writes == old(st.writes) + [MessagesKey, MessagesKey]
    ensures var rest := RemoveById(old(st.Messages()), id, MessageId);
            (forall i :: 0 <= i < |rest| ==> rest[i].read) ==>
              st.writes == old(st.writes) + [MessagesKey]
  {
    var messages := st.Messages();
    st.SaveMessages(RemoveById(messages, id, MessageId));
    shown := LoadContactMessages(st);
  }

  // ----- Reviews -----

  /** `loadReviews()` up to its rendering: all stored reviews, newest first.
      Unlike the public pages, the admin list does not prune expired
      reviews and does not write. */
  method LoadReviews(st: LocalStorage) returns (listed: seq<Review>)
    ensures listed == Reviews.SortNewestFirst(st.Reviews())
    ensures multiset(listed) == multiset(st.Reviews())
    ensures Reviews.NewestFirst(listed)
  {
    var reviews := st.Reviews();
    if |reviews| == 0 {
      return [];
    }
    listed := Reviews.SortNewestFirst(reviews);
  }

  /** `deleteReview(id)`: writes back every review whose id differs, in order. */
  method DeleteReview(st: LocalStorage, id: string)
    modifies st`reviews, st`writes
    ensures st.reviews == Some(RemoveById(old(st.Reviews()), id, ReviewId))
    ensures st.writes == old(st.writes) + [ReviewsKey]
  {
    var reviews := st.Reviews();
    st.SaveReviews(RemoveById(reviews, id, ReviewId));
  }
}
