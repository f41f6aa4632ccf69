/**
 * The skills section: the category tabs derived from the skill list, the
 * cards shown for the selected tab, and the staggered entrance of the cards
 * that restarts whenever the tab changes.
 */
module Skills {

  /** One skill card's data. */
  datatype Skill = Skill(id: string, title: string, category: string, proficiency: nat, desc: string)

  /** The skills, in display order. */
  const SKILLS: seq<Skill> := [
    Skill("react", "React", "Frontend", 92, "Component-driven UI, hooks, SSR/CSR"),
    Skill("next", "Next.js", "Frontend", 88, "Hybrid rendering, app/router, optimizations"),
    Skill("ts", "TypeScript", "Frontend", 76, "Typed JS for safer apps"),
    Skill("js", "javaScript", "Frontend", 86, "Typed JS for safer apps"),
    Skill("mongodb", "mongodb", "Database", 85, "Relational DB, queries, indexing"),
    Skill("Supa", "supabase", "Database", 85, "Relational DB, queries, indexing"),
    Skill("node", "Node.js", "Backend", 84, "APIs, servers, tooling"),
    Skill("python", "Python", "Programming Languages", 84, "Coding"),
    Skill("Java", "Java", "Programming Languages", 84, "Core Java")
  ]

  /** The tab that shows every skill. */
  const All := "All"

  /** The delay between the entrances of consecutive cards, in milliseconds. */
  const StaggerBaseMs: nat := 80

  /** How much later than its card a donut starts drawing, in milliseconds. */
  const DonutLagMs: nat := 60

  // ---------------------------------------------------------------------------
  // Categories
  // ---------------------------------------------------------------------------

  predicate NoDuplicates<T(==)>(xs: seq<T>) {
    forall i, j :: 0 <= i < j < |xs| ==> xs[i] != xs[j]
  }

  /** The index of the first occurrence of `x` in `xs`. */
  function FirstIndex(xs: seq<string>, x: string): (i: nat)
    requires x in xs
    ensures i < |xs| && xs[i] == x && x !in xs[..i]
  {
    if xs[0] == x then 0 else 1 + FirstIndex(xs[1..], x)
  }

  /** A first occurrence within a prefix is the first occurrence in the whole sequence. */
  lemma FirstIndexPrefix(xs: seq<string>, n: nat, x: string)
    requires n <= |xs| && x in xs[..n]
    ensures FirstIndex(xs[..n], x) == FirstIndex(xs, x)
  {
    var i := FirstIndex(xs[..n], x);
    assert xs[..i] == xs[..n][..i];
  }

  /**
   * `Array.from(new Set(xs))`: the elements of `xs` without repeats, in the
   * order in which they first occur.
   */
  function Distinct(xs: seq<string>): (d: seq<string>)
    ensures NoDuplicates(d)
    ensures forall x :: x in d <==> x in xs
  {
    if xs == [] then []
    else
      var d := Distinct(xs[..|xs| - 1]);
      var last := xs[|xs| - 1];
      assert forall x :: x in xs <==> x in xs[..|xs| - 1] || x == last by {
        assert xs == xs[..|xs| - 1] + [last];
      }
      if last in d then d else d + [last]
  }

  /** `Distinct` lists the values in the order of their first occurrences in `xs`. */
  lemma {:induction false} DistinctOrder(xs: seq<string>)
    ensures forall i, j :: 0 <= i < j < |Distinct(xs)| ==>
              FirstIndex(xs, Distinct(xs)[i]) < FirstIndex(xs, Distinct(xs)[j])
  {
    if xs != [] {
      var init := xs[..|xs| - 1];
      var last := xs[|xs| - 1];
      var d := Distinct(init);
      DistinctOrder(init);
      forall i | 0 <= i < |d|
        ensures FirstIndex(init, d[i]) == FirstIndex(xs, d[i])
      {
        FirstIndexPrefix(xs, |xs| - 1, d[i]);
      }
      if last !in d {
        assert last !in xs[..|xs| - 1];
        assert FirstIndex(xs, last) == |xs| - 1;
      }
    }
  }

  /** The category of every skill, in order. */
  function CategoryList(skills: seq<Skill>): (cs: seq<string>)
    ensures |cs| == |skills|
    ensures forall i :: 0 <= i < |skills| ==> cs[i] == skills[i].category
  {
    seq(|skills|, i requires 0 <= i < |skills| => skills[i].category)
  }

  /** The `categories` memo: 'All' and then each category once, in order of first appearance. */
  function Categories(skills: seq<Skill>): (cats: seq<string>)
    ensures |cats| >= 1 && cats[0] == All
    ensures forall c :: c in cats[1..] <==> exists s :: s in skills && s.category == c
    ensures NoDuplicates(cats[1..])
  {
    var cs := CategoryList(skills);
    var d := Distinct(cs);
    assert forall c :: c in cs <==> exists s :: s in skills && s.category == c by {
      forall c | c in cs ensures exists s :: s in skills && s.category == c {
        var i :| 0 <= i < |cs| && cs[i] == c;
        assert skills[i] in skills;
      }
      forall s | s in skills ensures s.category in cs {
        var i :| 0 <= i < |skills| && skills[i] == s;
        assert cs[i] == s.category;
      }
    }
    assert ([All] + d)[1..] == d;
    [All] + d
  }

  /**
   * When no skill is itself in a category called 'All', the tabs have no
   * repeats, so each tab's key is unique.
   */
  lemma CategoriesDistinct(skills: seq<Skill>)
    requires forall s :: s in skills ==> s.category != All
    ensures NoDuplicates(Categories(skills))
  {
    var cats := Categories(skills);
    forall i, j | 0 <= i < j < |cats|
      ensures cats[i] != cats[j]
    {
      if i == 0 {
        assert cats[j] in cats[1..];
      } else {
        assert cats[i] == cats[1..][i - 1] && cats[j] == cats[1..][j - 1];
      }
    }
  }

  /** The categories after 'All' come in the order in which the skill list first uses them. */
  lemma CategoriesInFirstUseOrder(skills: seq<Skill>)
    ensures forall i, j :: 1 <= i < j < |Categories(skills)| ==>
              FirstIndex(CategoryList(skills), Categories(skills)[i]) <
              FirstIndex(CategoryList(skills), Categories(skills)[j])
  {
    var d := Distinct(CategoryList(skills));
    DistinctOrder(CategoryList(skills));
    assert Categories(skills) == [All] + d;
    forall i, j | 1 <= i < j < |Categories(skills)|
      ensures FirstIndex(CategoryList(skills), Categories(skills)[i]) <
              FirstIndex(CategoryList(skills), Categories(skills)[j])
    {
      assert Categories(skills)[i] == d[i - 1] && Categories(skills)[j] == d[j - 1];
    }
  }

  /** For this skill list the tabs are All, Frontend, Database, Backend and Programming Languages. */
  lemma SkillTabs()
    ensures Categories(SKILLS) == [All, "Frontend", "Database", "Backend", "Programming Languages"]
  {
    var cs := CategoryList(SKILLS);
    assert cs == ["Frontend", "Frontend", "Frontend", "Frontend", "Database", "Database",
                  "Backend", "Programming Languages", "Programming Languages"];
    DistinctSkillCategories("Frontend", "Database", "Backend", "Programming Languages");
  }

  /** The distinct categories of a list with this shape, one step of `Distinct` at a time. */
  lemma DistinctSkillCategories(f: string, db: string, be: string, pl: string)
    requires f != db && f != be && f != pl && db != be && db != pl && be != pl
    ensures Distinct([f, f, f, f, db, db, be, pl, pl]) == [f, db, be, pl]
  {
    var p1, p2, p3 := [f], [f, f], [f, f, f];
    var p4, p5, p6 := [f, f, f, f], [f, f, f, f, db], [f, f, f, f, db, db];
    var p7, p8 := [f, f, f, f, db, db, be], [f, f, f, f, db, db, be, pl];
    var p9 := [f, f, f, f, db, db, be, pl, pl];
    assert Distinct(p1) == [f] by { assert p1[..0] == []; }
    assert Distinct(p2) == [f] by { assert p2[..1] == p1; }
    assert Distinct(p3) == [f] by { assert p3[..2] == p2; }
    assert Distinct(p4) == [f] by { assert p4[..3] == p3; }
    assert Distinct(p5) == [f, db] by { assert p5[..4] == p4; }
    assert Distinct(p6) == [f, db] by { assert p6[..5] == p5; }
    assert Distinct(p7) == [f, db, be] by { assert p7[..6] == p6; }
    assert Distinct(p8) == [f, db, be, pl] by { assert p8[..7] == p7; }
    assert p9[..8] == p8;
  }

  // ---------------------------------------------------------------------------
  // Filtering
  // ---------------------------------------------------------------------------

  /** `xs` is `ys` with some elements left out, the rest in their order. */
  predicate Subsequence<T(==)>(xs: seq<T>, ys: seq<T>)
    decreases |ys|
  {
    if xs == [] then true
    else if ys == [] then false
    else if xs[0] == ys[0] then Subsequence(xs[1..], ys[1..])
    else Subsequence(xs, ys[1..])
  }

  /** `skills.filter((s) => s.category === category)`. */
  function KeepCategory(skills: seq<Skill>, category: string): (r: seq<Skill>)
    ensures Subsequence(r, skills)
    ensures forall s :: s in r <==> s in skills && s.category == category
    ensures forall s :: multiset(r)[s] == if s.category == category then multiset(skills)[s] else 0
  {
    if skills == [] then []
    else
      var rest := KeepCategory(skills[1..], category);
      assert skills == [skills[0]] + skills[1..];
      if skills[0].category == category then
        assert ([skills[0]] + rest)[1..] == rest;
        [skills[0]] + rest
      else
        assert rest == [] || rest[0] != skills[0];
        rest
  }

  /** The `filtered` memo: every skill under 'All', otherwise the selected category's skills in order. */
  function Filtered(selected: string, skills: seq<Skill>): (r: seq<Skill>)
    ensures selected == All ==> r == skills
    ensures selected != All ==> r == KeepCategory(skills, selected)
  {
    if selected == All then skills else KeepCategory(skills, selected)
  }

  /**
   * The non-'All' tabs partition the skills: a skill is listed under a tab
   * exactly when the tab is its category, and its category is one of the tabs.
   */
  lemma FilterPartition(skills: seq<Skill>, s: Skill)
    requires s in skills
    requires forall t :: t in skills ==> t.category != All
    ensures s.category in Categories(skills)[1..]
    ensures forall c :: c in Categories(skills)[1..] ==> (s in Filtered(c, skills) <==> c == s.category)
  {
  }

  /** The number of `x` in `xs`. */
  function Occurrences(xs: seq<string>, x: string): nat {
    if xs == [] then 0 else (if xs[0] == x then 1 else 0) + Occurrences(xs[1..], x)
  }

  /** The total length of the lists shown under the tabs `cats`. */
  function TabTotal(cats: seq<string>, skills: seq<Skill>): nat {
    if cats == [] then 0 else |KeepCategory(skills, cats[0])| + TabTotal(cats[1..], skills)
  }

  /** Adding a skill at the front adds one card under each tab naming its category. */
  lemma {:induction false} TabTotalCons(cats: seq<string>, s: Skill, rest: seq<Skill>)
    ensures TabTotal(cats, [s] + rest) == TabTotal(cats, rest) + Occurrences(cats, s.category)
  {
    if cats != [] {
      assert ([s] + rest)[1..] == rest;
      TabTotalCons(cats[1..], s, rest);
    }
  }

  /** A value listed once in a sequence without repeats occurs exactly once. */
  lemma {:induction false} OccursOnce(xs: seq<string>, x: string)
    requires NoDuplicates(xs) && x in xs
    ensures Occurrences(xs, x) == 1
  {
    if xs[0] == x {
      assert x !in xs[1..];
      NotOccurs(xs[1..], x);
    } else {
      OccursOnce(xs[1..], x);
    }
  }

  lemma {:induction false} NotOccurs(xs: seq<string>, x: string)
    requires x !in xs
    ensures Occurrences(xs, x) == 0
  {
    if xs != [] {
        assert forall y :: y in xs[1..] ==> y in xs;
      NotOccurs(xs[1..], x);
    }
  }

  /** Tabs listed without repeats and covering every category show each skill exactly once in total. */
  lemma {:induction false} TabTotalCovers(cats: seq<string>, skills: seq<Skill>)
    requires NoDuplicates(cats)
    requires forall s :: s in skills ==> s.category in cats
    ensures TabTotal(cats, skills) == |skills|
  {
    if skills == [] {
      EmptyTabs(cats);
    } else {
      var s := skills[0];
      var rest := skills[1..];
      assert skills == [s] + rest;
      assert forall t :: t in rest ==> t in skills;
      TabTotalCovers(cats, rest);
      TabTotalCons(cats, s, rest);
      OccursOnce(cats, s.category);
    }
  }

  lemma {:induction false} EmptyTabs(cats: seq<string>)
    ensures TabTotal(cats, []) == 0
  {
    if cats != [] {
      EmptyTabs(cats[1..]);
    }
  }

  /** The lists under the non-'All' tabs add up to the full list: no skill is lost or shown twice. */
  lemma TabsCoverAllSkills(skills: seq<Skill>)
    ensures TabTotal(Categories(skills)[1..], skills) == |skills|
  {
    var cats := Categories(skills)[1..];
    forall s | s in skills
      ensures s.category in cats
    {
    }
    TabTotalCovers(cats, skills);
  }

  // ---------------------------------------------------------------------------
  // Cards
  // ---------------------------------------------------------------------------

  /**
   * What one card shows: its entrance delay, whether it is shown, the width
   * of its mini bar in percent, and its donut's delay and whether it plays.
   */
  datatype Card = Card(skill: Skill, delayMs: nat, shown: bool, barPercent: nat, donutDelayMs: nat, play: bool)

  /**
   * The card for the skill at position `idx` of the filtered list: it enters
   * `80 * idx` ms late; while animating it is shown, its bar fills to the
   * proficiency and its donut plays 60 ms after the card; before that the
   * bar is empty and the donut waits with no delay.
   */
  function CardAt(s: Skill, idx: nat, animateStart: bool): (c: Card)
    ensures c.skill == s && c.delayMs == StaggerBaseMs * idx
    ensures c.shown == animateStart && c.play == animateStart
    ensures c.barPercent <= s.proficiency
    ensures animateStart ==> c.barPercent == s.proficiency && c.donutDelayMs == c.delayMs + DonutLagMs
    ensures !animateStart ==> c.barPercent == 0 && c.donutDelayMs == 0
  {
    var delayMs := StaggerBaseMs * idx;
    Card(s, delayMs, animateStart,
         if animateStart then s.proficiency else 0,
         if animateStart then delayMs + DonutLagMs else 0,
         animateStart)
  }

  /** The cards for `filtered`, in order. */
  function Cards(filtered: seq<Skill>, animateStart: bool): (cards: seq<Card>)
    ensures |cards| == |filtered|
    ensures forall i :: 0 <= i < |cards| ==> cards[i] == CardAt(filtered[i], i, animateStart)
  {
    seq(|filtered|, i requires 0 <= i < |filtered| => CardAt(filtered[i], i, animateStart))
  }

  /**
   * The entrance is staggered: each card starts 80 ms after the one before
   * it, the first at once; while animating each donut starts 60 ms after its
   * card and each bar fills to the skill's proficiency, and before that
   * every bar is empty and every donut waits with no delay.
   */
  lemma Stagger(filtered: seq<Skill>, animateStart: bool)
    ensures forall i :: 0 <= i < |filtered| ==> Cards(filtered, animateStart)[i].skill == filtered[i]
    ensures |filtered| > 0 ==> Cards(filtered, animateStart)[0].delayMs == 0
    ensures forall i :: 0 < i < |filtered| ==>
              Cards(filtered, animateStart)[i].delayMs == Cards(filtered, animateStart)[i - 1].delayMs + StaggerBaseMs
    ensures animateStart ==> forall i :: 0 <= i < |filtered| ==>
              && Cards(filtered, animateStart)[i].donutDelayMs == Cards(filtered, animateStart)[i].delayMs + DonutLagMs
              && Cards(filtered, animateStart)[i].barPercent == filtered[i].proficiency
    ensures !animateStart ==> forall i :: 0 <= i < |filtered| ==>
              && Cards(filtered, animateStart)[i].donutDelayMs == 0
              && Cards(filtered, animateStart)[i].barPercent == 0
              && !Cards(filtered, animateStart)[i].shown
  {
  }

  // ---------------------------------------------------------------------------
  // The component
  // ---------------------------------------------------------------------------

  /**
   * The `selected` tab, the `animateStart` flag, and whether the effect's
   * 80 ms timer is pending.
   */
  class SkillsSection {
    var selected: string
    var animateStart: bool
    var timerPending: bool

    /** The animation waits exactly while the timer is pending. */
    ghost predicate Valid()
      reads this
    {
      timerPending == !animateStart
    }

    /** The skills on screen: the `filtered` memo for the selected tab. */
    function Shown(): seq<Skill>
      reads this
    {
      Filtered(selected, SKILLS)
    }

    /** Mounting: the 'All' tab, and the effect's first run. */
    constructor ()
      ensures selected == All && !animateStart && timerPending
      ensures Valid()
    {
      selected := All;
      animateStart := false;
      timerPending := true;
    }

    /**
     * A tab is clicked (or chosen with Enter or Space). A different tab makes
     * the effect run again: the animation resets and a fresh timer replaces
     * the old one. The same tab changes nothing.
     */
    method SelectTab(c: string)
      requires Valid()
      modifies this
      ensures Valid()
      ensures selected == c
      ensures Shown() == Filtered(c, SKILLS)
      ensures c != old(selected) ==> !animateStart && timerPending
      ensures c == old(selected) ==> animateStart == old(animateStart) && timerPending == old(timerPending)
    {
      if c == selected {
        return;
      }
      selected := c;
      animateStart := false;
      timerPending := true;
    }

    /** The 80 ms timer fires: the cards animate in. */
    method TimerFires()
      requires Valid() && timerPending
      modifies this
      ensures Valid()
      ensures animateStart && !timerPending && selected == old(selected)
    {
      animateStart := true;
      timerPending := false;
    }
  }
}
