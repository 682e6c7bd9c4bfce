/** The public skills page: default seeding, grouping by category, the
    sections rendered in a fixed order, the icon fallback and the polling
    test that decides when to re-render. */
module Skills {
  import opened Wrappers
  import opened JsText
  import opened Collections
  import opened Records
  import opened Storage
  import Admin

  // ----- Default skills -----

  /** The eighteen skills written to an empty store, six per category. */
  const DefaultSkills: seq<Skill> := [
    Skill("1", "HTML5", "frontend", 95, "fab fa-html5"),
    Skill("2", "CSS3", "frontend", 90, "fab fa-css3-alt"),
    Skill("3", "JavaScript", "frontend", 88, "fab fa-js"),
    Skill("4", "React", "frontend", 85, "fab fa-react"),
    Skill("5", "Vue.js", "frontend", 80, "fab fa-vue"),
    Skill("6", "Angular", "frontend", 75, "fab fa-angular"),
    Skill("7", "Node.js", "backend", 85, "fab fa-node"),
    Skill("8", "Python", "backend", 80, "fab fa-python"),
    Skill("9", "PHP", "backend", 75, "fab fa-php"),
    Skill("10", "MongoDB", "backend", 82, "fas fa-database"),
    Skill("11", "MySQL", "backend", 78, "fas fa-database"),
    Skill("12", "Firebase", "backend", 80, "fab fa-firebase"),
    Skill("13", "Figma", "design", 90, "fab fa-figma"),
    Skill("14", "Adobe XD", "design", 85, "fab fa-adobe"),
    Skill("15", "Git", "design", 88, "fab fa-git-alt"),
    Skill("16", "SASS", "design", 85, "fab fa-sass"),
    Skill("17", "Bootstrap", "design", 90, "fab fa-bootstrap"),
    Skill("18", "NPM", "design", 85, "fab fa-npm")
  ]

  /** The category keys in the order the page renders them (the key order
      of `categoryConfig`). */
  const CategoryOrder: seq<string> := ["frontend", "backend", "design"]

  /** The decimal digits of `n`, most significant first. */
  function DecimalString(n: nat): (r: string)
    ensures 1 <= |r|
    ensures forall i :: 0 <= i < |r| ==> '0' <= r[i] <= '9'
  {
    var digit := ['0' + (n % 10) as char];
    if n < 10 then digit else DecimalString(n / 10) + digit
  }

  /** A two-digit number's decimal string. */
  lemma DecimalTwoDigits(n: nat)
    requires 10 <= n < 100
    ensures DecimalString(n) == ['0' + (n / 10) as char, '0' + (n % 10) as char]
  {
  }

  /** The numbers 10 to 19 are a one followed by their units digit. */
  lemma DecimalTeens(n: nat)
    requires 10 <= n < 20
    ensures DecimalString(n) == ['1', "0123456789"[n - 10]]
  {
    DecimalTwoDigits(n);
  }

  /** The seeded ids are "1" to "18" in order. */
  lemma DefaultSkillIds()
    ensures |DefaultSkills| == 18
    ensures forall i :: 0 <= i < 18 ==> DefaultSkills[i].id == DecimalString(i + 1)
  {
    forall i | 0 <= i < 18 ensures DefaultSkills[i].id == DecimalString(i + 1) {
      if i < 9 {
        DefaultSkillIdsOneDigit(i);
      } else {
        DefaultSkillIdsTwoDigits(i);
      }
    }
  }

  lemma DefaultSkillIdsOneDigit(i: nat)
    requires i < 9
    ensures DefaultSkills[i].id == DecimalString(i + 1)
  {
  }

  lemma DefaultSkillIdsTwoDigits(i: nat)
    requires 9 <= i < 18
    ensures DefaultSkills[i].id == DecimalString(i + 1)
  {
    DecimalTeens(i + 1);
  }

  /** The seeded skills come six per category, in the render order, and
      every percentage lies within 75..95. */
  lemma DefaultSkillCategories()
    ensures forall i :: 0 <= i < 18 ==> DefaultSkills[i].category == CategoryOrder[i / 6]
    ensures forall i :: 0 <= i < 18 ==> 75 <= DefaultSkills[i].percentage <= 95
  {
  }

  /** The skills after seeding: the defaults when the list is empty, the
      list itself otherwise. */
  function Seeded(s: seq<Skill>): (r: seq<Skill>)
    ensures s == [] ==> r == DefaultSkills
    ensures s != [] ==> r == s
    ensures r != []
  {
    if |s| == 0 then DefaultSkills else s
  }

  /** Seeding twice is seeding once. */
  lemma SeededIdempotent(s: seq<Skill>)
    ensures Seeded(Seeded(s)) == Seeded(s)
  {
  }

  /** `initializeDefaultSkills()`: writes the defaults only when the stored
      list is empty (or the key is absent); otherwise storage is untouched.
      A second call therefore never writes. */
  method InitializeDefaultSkills(st: LocalStorage)
    modifies st`skills, st`writes
    ensures old(st.Skills()) == [] ==>
              st.skills == Some(DefaultSkills) && st.writes == old(st.writes) + [SkillsKey]
    ensures old(st.Skills()) != [] ==> st.skills == old(st.skills) && st.writes == old(st.writes)
    ensures st.Skills() == Seeded(old(st.Skills())) && st.Skills() != []
  {
    var skills := st.Skills();
    if |skills| == 0 {
      st.SaveSkills(DefaultSkills);
    }
  }

  // ----- Grouping -----

  /** "The skill's category is `c`". */
  function InCategory(c: string): Skill -> bool {
    (s: Skill) => s.category == c
  }

  /** The skills of category `c`, in stored order. */
  function Bucket(s: seq<Skill>, c: string): (r: seq<Skill>)
    ensures |r| <= |s|
  {
    if s == [] then []
    else (if s[0].category == c then [s[0]] else []) + Bucket(s[1..], c)
  }

  /** A bucket is the list filtered by its category. */
  lemma {:induction false} BucketIsFilter(s: seq<Skill>, c: string)
    ensures Bucket(s, c) == Filter(s, InCategory(c))
  {
    if s != [] {
      BucketIsFilter(s[1..], c);
    }
  }

  /** A bucket holds exactly the skills of its category. */
  lemma BucketMembers(s: seq<Skill>, c: string)
    ensures forall i :: 0 <= i < |Bucket(s, c)| ==> Bucket(s, c)[i] in s && Bucket(s, c)[i].category == c
    ensures forall i :: 0 <= i < |s| && s[i].category == c ==> s[i] in Bucket(s, c)
  {
    BucketIsFilter(s, c);
  }

  /** Extending the list by one skill extends only that skill's bucket. */
  lemma BucketSnoc(s: seq<Skill>, x: Skill, c: string)
    ensures Bucket(s + [x], c) == Bucket(s, c) + (if x.category == c then [x] else [])
  {
    BucketIsFilter(s + [x], c);
    BucketIsFilter(s, c);
    FilterConcat(s, [x], InCategory(c));
    FilterCons(x, [], InCategory(c));
    assert [x] + [] == [x];
  }

  /** A category no skill has has an empty bucket. */
  lemma BucketOfAbsent(s: seq<Skill>, c: string)
    requires c !in Categories(s)
    ensures Bucket(s, c) == []
  {
    forall j | 0 <= j < |s| ensures !InCategory(c)(s[j]) {
      assert s[j].category in Categories(s);
    }
    FilterNone(s, InCategory(c));
    BucketIsFilter(s, c);
  }

  /** The categories that occur in a list of skills. */
  function Categories(s: seq<Skill>): (r: set<string>)
    ensures forall i :: 0 <= i < |s| ==> s[i].category in r
  {
    set i | 0 <= i < |s| :: s[i].category
  }

  /** Appending a skill adds its category. */
  lemma CategoriesSnoc(s: seq<Skill>, x: Skill)
    ensures Categories(s + [x]) == Categories(s) + {x.category}
  {
    var t := s + [x];
    forall c | c in Categories(t) ensures c in Categories(s) + {x.category} {
      var i :| 0 <= i < |t| && t[i].category == c;
      if i < |s| {
        assert t[i] == s[i];
      }
    }
    forall c | c in Categories(s) ensures c in Categories(t) {
      var i :| 0 <= i < |s| && s[i].category == c;
      assert t[i] == s[i];
    }
    assert t[|s|] == x;
  }

  /** What `skillsByCategory` should hold: a key for each category that
      occurs, mapped to that category's skills in stored order. */
  function Grouping(s: seq<Skill>): map<string, seq<Skill>> {
    map c | c in Categories(s) :: Bucket(s, c)
  }

  /** The grouping after one more skill: the skill is appended to its
      category's list, which starts empty when the category is new. */
  function AddToGroup(groups: map<string, seq<Skill>>, x: Skill): map<string, seq<Skill>> {
    groups[x.category := (if x.category in groups then groups[x.category] else []) + [x]]
  }

  /** The `skills.forEach` loop that fills `skillsByCategory`. */
  method GroupByCategory(skills: seq<Skill>) returns (groups: map<string, seq<Skill>>)
    ensures groups == Grouping(skills)
  {
    groups := map[];
    assert Categories(skills[..0]) == {};
    for i := 0 to |skills|
      invariant groups == Grouping(skills[..i])
    {
      var skill := skills[i];
      GroupingSnoc(skills[..i + 1]);
      assert skills[..i + 1][..i] == skills[..i];
      // A missing category starts as an empty list; the skill is pushed onto it.
      var list := if skill.category in groups then groups[skill.category] else [];
      groups := groups[skill.category := list + [skill]];
    }
    assert skills[..|skills|] == skills;
  }

  /** Adding the last skill of `s` to the grouping of the skills before it
      gives the grouping of all of `s`. */
  lemma GroupingSnoc(s: seq<Skill>)
    requires s != []
    ensures Grouping(s) == AddToGroup(Grouping(s[..|s| - 1]), s[|s| - 1])
  {
    var init, x := s[..|s| - 1], s[|s| - 1];
    assert init + [x] == s;
    CategoriesSnoc(init, x);
    forall c | c in Categories(s) ensures AddToGroup(Grouping(init), x)[c] == Bucket(s, c) {
      GroupingSnocAt(s, c);
    }
  }

  /** The list of one category after a grouping step. */
  lemma GroupingSnocAt(s: seq<Skill>, c: string)
    requires s != [] && c in AddToGroup(Grouping(s[..|s| - 1]), s[|s| - 1])
    ensures AddToGroup(Grouping(s[..|s| - 1]), s[|s| - 1])[c] == Bucket(s, c)
  {
    var init, x := s[..|s| - 1], s[|s| - 1];
    assert init + [x] == s;
    BucketSnoc(init, x, c);
    if c !in Categories(init) {
      BucketOfAbsent(init, c);
    }
  }

  /** No category in the grouping has an empty list. */
  lemma GroupingNonEmpty(s: seq<Skill>)
    ensures forall c :: c in Grouping(s) ==> Grouping(s)[c] != []
  {
    forall c | c in Grouping(s) ensures Grouping(s)[c] != [] {
      var i :| 0 <= i < |s| && s[i].category == c;
      BucketMembers(s, c);
    }
  }

  // ----- Rendering -----

  /** The rendered icon: the trimmed icon when that is not empty, the
      generic code icon otherwise. */
  function IconClass(icon: string): (r: string)
    ensures Trim(icon) != [] ==> r == Trim(icon)
    ensures Trim(icon) == [] ==> r == Admin.DefaultIcon
    ensures r != [] && IsTrimmed(r)
  {
    if Trim(icon) != [] then Trim(icon) else Admin.DefaultIcon
  }

  /** A skill added through the admin form renders with its trimmed icon,
      or the code icon when the input was empty or blank. */
  lemma IconOfSubmittedSkill(input: string)
    ensures IconClass(Admin.SkillIcon(input)) == (if Trim(input) == [] then Admin.DefaultIcon else Trim(input))
  {
    TrimOfTrimmed(Admin.DefaultIcon);
    if input == [] {
      TrimOfTrimmed(input);
    } else {
      TrimOfTrimmed(Trim(input));
    }
  }

  /** One rendered skill: its name, icon class and percentage. */
  datatype SkillItem = SkillItem(name: string, iconClass: string, percentage: int)

  /** One rendered category section. */
  datatype Section = Section(key: string, title: string, icon: string, items: seq<SkillItem>)

  function ItemFor(s: Skill): SkillItem {
    SkillItem(s.name, IconClass(s.icon), s.percentage)
  }

  /** The skill items of a bucket, in order. */
  function Items(bucket: seq<Skill>): (r: seq<SkillItem>)
    ensures |r| == |bucket|
    ensures forall i :: 0 <= i < |r| ==> r[i] == ItemFor(bucket[i])
  {
    seq(|bucket|, i requires 0 <= i < |bucket| => ItemFor(bucket[i]))
  }

  /** `categoryConfig[key]`: the title and icon of a known category. */
  function Title(key: string): string {
    if key == "frontend" then "Frontend Development"
    else if key == "backend" then "Backend Development"
    else "Design & Tools"
  }

  function SectionIcon(key: string): string {
    if key == "frontend" then "fas fa-code"
    else if key == "backend" then "fas fa-server"
    else "fas fa-paint-brush"
  }

  /** The section of category `key`: its configured title and icon, and one
      item per skill of that category. */
  function SectionFor(s: seq<Skill>, key: string): Section {
    Section(key, Title(key), SectionIcon(key), Items(Bucket(s, key)))
  }

  /** The section for `key`, if its bucket is not empty. */
  function SectionOf(s: seq<Skill>, key: string): seq<Section> {
    if Bucket(s, key) != [] then [SectionFor(s, key)] else []
  }

  /** The sections for a list of category keys, in the keys' order. */
  function SectionsOver(s: seq<Skill>, keys: seq<string>): (r: seq<Section>)
    ensures |r| <= |keys|
    decreases |keys|
  {
    if keys == [] then []
    else SectionsOver(s, keys[..|keys| - 1]) + SectionOf(s, keys[|keys| - 1])
  }

  /** The sections for the first `n` category keys. */
  function SectionsUpTo(s: seq<Skill>, n: nat): (r: seq<Section>)
    requires n <= |CategoryOrder|
    ensures |r| <= n
  {
    SectionsOver(s, CategoryOrder[..n])
  }

  /** Taking one more category key appends that key's section, if any. */
  lemma SectionsUpToStep(s: seq<Skill>, n: nat)
    requires 1 <= n <= |CategoryOrder|
    ensures SectionsUpTo(s, n) == SectionsUpTo(s, n - 1) + SectionOf(s, CategoryOrder[n - 1])
  {
    assert CategoryOrder[..n][..n - 1] == CategoryOrder[..n - 1];
  }

  /** The position of the first occurrence of `key` in `keys`, or `|keys|`
      when it does not occur. */
  function IndexOf(keys: seq<string>, key: string): (k: nat)
    ensures k <= |keys|
    ensures k < |keys| ==> keys[k] == key
    ensures forall j :: 0 <= j < k ==> keys[j] != key
  {
    if keys == [] then 0
    else if keys[0] == key then 0
    else 1 + IndexOf(keys[1..], key)
  }

  lemma IndexOfSnoc(init: seq<string>, last: string, key: string)
    ensures IndexOf(init + [last], key) ==
              if IndexOf(init, key) < |init| then IndexOf(init, key)
              else if key == last then |init|
              else |init| + 1
  {
    var keys := init + [last];
    var k0 := IndexOf(init, key);
    if k0 < |init| {
      assert keys[k0] == key;
    } else if key == last {
      assert keys[|init|] == key;
    }
  }

  predicate Distinct(keys: seq<string>) {
    forall i, j :: 0 <= i < j < |keys| ==> keys[i] != keys[j]
  }

  /** Each section is the full section of one of the keys, and that key's
      bucket is not empty. */
  ghost predicate SectionsFromBuckets(r: seq<Section>, s: seq<Skill>, keys: seq<string>) {
    forall i :: 0 <= i < |r| ==>
      IndexOf(keys, r[i].key) < |keys| && r[i] == SectionFor(s, r[i].key) && Bucket(s, r[i].key) != []
  }

  /** The sections' keys come at strictly increasing positions of `keys`. */
  ghost predicate InKeyOrder(r: seq<Section>, keys: seq<string>) {
    forall i, j :: 0 <= i < j < |r| ==> IndexOf(keys, r[i].key) < IndexOf(keys, r[j].key)
  }

  /** Every key whose bucket is not empty has a section. */
  ghost predicate CoversBuckets(r: seq<Section>, s: seq<Skill>, keys: seq<string>) {
    forall k :: 0 <= k < |keys| && Bucket(s, keys[k]) != [] ==>
      exists i :: 0 <= i < |r| && r[i].key == keys[k]
  }

  lemma FromBucketsSnoc(prev: seq<Section>, s: seq<Skill>, init: seq<string>, last: string)
    requires SectionsFromBuckets(prev, s, init)
    ensures SectionsFromBuckets(prev + SectionOf(s, last), s, init + [last])
  {
    var r := prev + SectionOf(s, last);
    forall i | 0 <= i < |r|
      ensures IndexOf(init + [last], r[i].key) < |init| + 1
      ensures r[i] == SectionFor(s, r[i].key) && Bucket(s, r[i].key) != []
    {
      IndexOfSnoc(init, last, r[i].key);
      if i < |prev| {
        assert r[i] == prev[i];
      }
    }
  }

  lemma InKeyOrderSnoc(prev: seq<Section>, s: seq<Skill>, init: seq<string>, last: string)
    requires SectionsFromBuckets(prev, s, init) && InKeyOrder(prev, init)
    requires last !in init
    ensures InKeyOrder(prev + SectionOf(s, last), init + [last])
  {
    var r := prev + SectionOf(s, last);
    var keys := init + [last];
    forall i, j | 0 <= i < j < |r| ensures IndexOf(keys, r[i].key) < IndexOf(keys, r[j].key) {
      assert r[i] == prev[i];
      IndexOfSnoc(init, last, r[i].key);
      IndexOfSnoc(init, last, r[j].key);
      if j >= |prev| {
        assert r[j].key == last;
        assert IndexOf(init, last) == |init|;
      } else {
        assert r[j] == prev[j];
      }
    }
  }

  lemma CoversSnoc(prev: seq<Section>, s: seq<Skill>, init: seq<string>, last: string)
    requires CoversBuckets(prev, s, init)
    ensures CoversBuckets(prev + SectionOf(s, last), s, init + [last])
  {
    var r := prev + SectionOf(s, last);
    var keys := init + [last];
    forall k | 0 <= k < |keys| && Bucket(s, keys[k]) != []
      ensures exists i :: 0 <= i < |r| && r[i].key == keys[k]
    {
      if k < |init| {
        assert keys[k] == init[k];
        var i :| 0 <= i < |prev| && prev[i].key == init[k];
        assert r[i] == prev[i];
      } else {
        assert r[|prev|] == SectionFor(s, last);
      }
    }
  }

  /** For distinct keys, the sections follow the keys' order, one for each
      key whose bucket is not empty and none for the others. */
  lemma {:induction false} SectionsOverInOrder(s: seq<Skill>, keys: seq<string>)
    requires Distinct(keys)
    ensures SectionsFromBuckets(SectionsOver(s, keys), s, keys)
    ensures InKeyOrder(SectionsOver(s, keys), keys)
    ensures CoversBuckets(SectionsOver(s, keys), s, keys)
    decreases |keys|
  {
    if keys != [] {
      var init, last := keys[..|keys| - 1], keys[|keys| - 1];
      assert keys == init + [last];
      SectionsOverInOrder(s, init);
      var prev := SectionsOver(s, init);
      FromBucketsSnoc(prev, s, init, last);
      InKeyOrderSnoc(prev, s, init, last);
      CoversSnoc(prev, s, init, last);
    }
  }

  /** The sections for the first `n` keys follow the render order, one for
      each of those categories whose bucket is not empty and none for the
      others, each with its configured title and icon and the items of its
      bucket. */
  lemma SectionsInOrder(s: seq<Skill>, n: nat)
    requires n <= |CategoryOrder|
    ensures SectionsFromBuckets(SectionsUpTo(s, n), s, CategoryOrder[..n])
    ensures InKeyOrder(SectionsUpTo(s, n), CategoryOrder[..n])
    ensures CoversBuckets(SectionsUpTo(s, n), s, CategoryOrder[..n])
  {
    assert Distinct(CategoryOrder);
    SectionsOverInOrder(s, CategoryOrder[..n]);
  }

  /** Everything the skills page renders for a list of skills. */
  function Sections(s: seq<Skill>): seq<Section> {
    SectionsUpTo(s, |CategoryOrder|)
  }

  /** The number of `.skill-item` elements the sections hold. */
  function ItemCount(sections: seq<Section>): nat {
    if sections == [] then 0 else |sections[0].items| + ItemCount(sections[1..])
  }

  lemma {:induction false} ItemCountConcat(a: seq<Section>, b: seq<Section>)
    ensures ItemCount(a + b) == ItemCount(a) + ItemCount(b)
  {
    if a == [] {
      assert a + b == b;
    } else {
      assert (a + b)[0] == a[0];
      assert (a + b)[1..] == a[1..] + b;
      ItemCountConcat(a[1..], b);
    }
  }

  /** "The category is one the page renders". */
  function IsKnownCategory(): Skill -> bool {
    (s: Skill) => s.category in CategoryOrder
  }

  /** The buckets of the three categories together are as large as the
      list of skills with a known category. */
  lemma {:induction false} BucketSizes(s: seq<Skill>)
    ensures |Bucket(s, "frontend")| + |Bucket(s, "backend")| + |Bucket(s, "design")|
            == |Filter(s, IsKnownCategory())|
  {
    if s != [] {
      var h, t := s[0], s[1..];
      assert s == [h] + t;
      BucketSizes(t);
      FilterCons(h, t, IsKnownCategory());
    }
  }

  /** The page renders exactly the skills whose category is known. */
  lemma RenderedCount(s: seq<Skill>)
    ensures ItemCount(Sections(s)) == |Filter(s, IsKnownCategory())|
  {
    BucketSizes(s);
    SectionsStep(s, 1);
    SectionsStep(s, 2);
    SectionsStep(s, 3);
  }

  /** Each further category key adds the size of its bucket to the count. */
  lemma SectionsStep(s: seq<Skill>, n: nat)
    requires 1 <= n <= |CategoryOrder|
    ensures ItemCount(SectionsUpTo(s, n)) == ItemCount(SectionsUpTo(s, n - 1)) + |Bucket(s, CategoryOrder[n - 1])|
  {
    SectionsUpToStep(s, n);
    ItemCountConcat(SectionsUpTo(s, n - 1), SectionOf(s, CategoryOrder[n - 1]));
    var sec := SectionOf(s, CategoryOrder[n - 1]);
    if sec != [] {
      assert sec[1..] == [];
    }
  }

  /** The `Object.keys(categoryConfig).forEach` loop that builds the
      sections from the grouped skills. */
  method RenderSections(skills: seq<Skill>, groups: map<string, seq<Skill>>) returns (sections: seq<Section>)
    requires groups == Grouping(skills)
    ensures sections == Sections(skills)
  {
    sections := [];
    for k := 0 to |CategoryOrder|
      invariant sections == SectionsUpTo(skills, k)
    {
      var key := CategoryOrder[k];
      SectionsUpToStep(skills, k + 1);
      if key in groups && |groups[key]| > 0 {
        sections := sections + [Section(key, Title(key), SectionIcon(key), Items(groups[key]))];
      } else if key !in groups {
        BucketOfAbsent(skills, key);
      }
    }
  }

  /** `loadSkills()` up to its rendering: seed if empty, group, and render
      the non-empty sections in the fixed order. */
  method LoadSkills(st: LocalStorage) returns (sections: seq<Section>)
    modifies st`skills, st`writes
    ensures st.Skills() == Seeded(old(st.Skills()))
    ensures sections == Sections(st.Skills())
    ensures old(st.Skills()) != [] ==> st.skills == old(st.skills) && st.writes == old(st.writes)
  {
    InitializeDefaultSkills(st);
    var skills := st.Skills();
    var groups := GroupByCategory(skills);
    sections := RenderSections(skills, groups);
  }

  /** The once-a-second poll: reload iff the number of rendered skill
      items differs from the number of stored skills. */
  predicate ShouldReloadSkills(displayed: nat, s: seq<Skill>) {
    displayed != |s|
  }

  /** One tick of the `setInterval` poll: run `loadSkills` when the number
      of rendered items differs from the number of stored skills. After a
      reload the poll is quiet exactly when every skill has a known
      category. */
  method PollSkills(st: LocalStorage, sections: seq<Section>) returns (r: seq<Section>)
    modifies st`skills, st`writes
    ensures ShouldReloadSkills(ItemCount(sections), old(st.Skills())) ==>
              st.Skills() == Seeded(old(st.Skills())) && r == Sections(st.Skills())
    ensures ShouldReloadSkills(ItemCount(sections), old(st.Skills())) ==>
              (ShouldReloadSkills(ItemCount(r), st.Skills()) <==>
               exists i :: 0 <= i < |st.Skills()| && st.Skills()[i].category !in CategoryOrder)
    ensures !ShouldReloadSkills(ItemCount(sections), old(st.Skills())) ==>
              r == sections && st.skills == old(st.skills) && st.writes == old(st.writes)
  {
    var skills := st.Skills();
    if ItemCount(sections) != |skills| {
      r := LoadSkills(st);
      ReloadAfterRenderIffUnknown(st.Skills());
    } else {
      r := sections;
    }
  }

  /** After a render, the poll stays quiet exactly when every stored skill
      has one of the three known categories: a skill of any other category
      is never rendered, so it keeps the poll reloading. */
  lemma ReloadAfterRenderIffUnknown(s: seq<Skill>)
    ensures ShouldReloadSkills(ItemCount(Sections(s)), s) <==>
            exists i :: 0 <= i < |s| && s[i].category !in CategoryOrder
  {
    RenderedCount(s);
    FilterKeepsAll(s, IsKnownCategory());
  }
}
