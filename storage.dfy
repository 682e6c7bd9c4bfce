/** The browser's `localStorage` as the site uses it: four keys, each holding
    a JSON array of records or absent. Every `setItem` is recorded in a ghost
    write log, so that contracts can say when a page writes and when it does not. */
module Storage {
  import opened Wrappers
  import opened Records

  /** The storage keys. */
  datatype Key = ProjectsKey | SkillsKey | ReviewsKey | MessagesKey {
    function Name(): string {
      match this
      case ProjectsKey => "portfolioProjects"
      case SkillsKey => "portfolioSkills"
      case ReviewsKey => "userReviews"
      case MessagesKey => "portfolioContactMessages"
    }
  }

  class LocalStorage {
    var projects: Option<seq<Project>>
    var skills: Option<seq<Skill>>
    var reviews: Option<seq<Review>>
    var messages: Option<seq<ContactMessage>>
    /** Every `setItem`, oldest first. */
    ghost var writes: seq<Key>

    /** A fresh origin: no key is set. */
    constructor ()
      ensures projects == None && skills == None && reviews == None && messages == None
      ensures writes == []
    {
      projects, skills, reviews, messages := None, None, None, None;
      writes := [];
    }

    /** `getProjects()`: the stored array, or `[]` when the key is absent. */
    function Projects(): (r: seq<Project>)
      reads this
      ensures projects == None ==> r == []
      ensures projects != None ==> r == projects.value
    {
      projects.GetOr([])
    }

    /** `getSkills()`: the stored array, or `[]` when the key is absent. */
    function Skills(): (r: seq<Skill>)
      reads this
      ensures skills == None ==> r == []
      ensures skills != None ==> r == skills.value
    {
      skills.GetOr([])
    }

    /** `getReviews()`: the stored array, or `[]` when the key is absent. */
    function Reviews(): (r: seq<Review>)
      reads this
      ensures reviews == None ==> r == []
      ensures reviews != None ==> r == reviews.value
    {
      reviews.GetOr([])
    }

    /** `getContactMessages()`: the stored array, or `[]` when the key is absent. */
    function Messages(): (r: seq<ContactMessage>)
      reads this
      ensures messages == None ==> r == []
      ensures messages != None ==> r == messages.value
    {
      messages.GetOr([])
    }

    /** `saveProjects(v)`: overwrites the whole array. */
    method SaveProjects(v: seq<Project>)
      modifies this`projects, this`writes
      ensures projects == Some(v) && writes == old(writes) + [ProjectsKey]
    {
      projects := Some(v);
      writes := writes + [ProjectsKey];
    }

    /** `saveSkills(v)`: overwrites the whole array. */
    method SaveSkills(v: seq<Skill>)
      modifies this`skills, this`writes
      ensures skills == Some(v) && writes == old(writes) + [SkillsKey]
    {
      skills := Some(v);
      writes := writes + [SkillsKey];
    }

    /** `saveReviews(v)`: overwrites the whole array. */
    method SaveReviews(v: seq<Review>)
      modifies this`reviews, this`writes
      ensures reviews == Some(v) && writes == old(writes) + [ReviewsKey]
    {
      reviews := Some(v);
      writes := writes + [ReviewsKey];
    }

    /** `saveContactMessages(v)`: overwrites the whole array. */
    method SaveMessages(v: seq<ContactMessage>)
      modifies this`messages, this`writes
      ensures messages == Some(v) && writes == old(writes) + [MessagesKey]
    {
      messages := Some(v);
      writes := writes + [MessagesKey];
    }
  }
}
