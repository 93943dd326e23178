/**
 * The results page: the learning roadmap built from the missing skills, the
 * progress tracker kept in the session, its completed/total summary, and the
 * split of a `"title:link"` resource item.
 */
module Results {
  import opened Wrappers
  import opened Strings
  import opened OrderedSets

  // ----- Learning roadmap -----

  datatype StepKind = Course | Project

  datatype Step = Step(title: string, kind: StepKind, durationWeeks: nat)

  datatype RoadmapEntry = RoadmapEntry(skill: string, sequence: seq<Step>)

  /**
   * The fixed three-step plan for one skill: two courses of 2 and 4 weeks and
   * a 3-week project, every title naming the skill.
   */
  function Steps(skill: string): (r: seq<Step>)
    ensures |r| == 3
    ensures r[0].kind == Course && r[1].kind == Course && r[2].kind == Project
    ensures r[0].durationWeeks == 2 && r[1].durationWeeks == 4 && r[2].durationWeeks == 3
    ensures r[0].title == "Foundations of " + skill
    ensures r[1].title == "Intermediate " + skill + " (hands-on)"
    ensures r[2].title == "Project: Build a " + skill + " project"
  {
    [ Step("Foundations of " + skill, Course, 2),
      Step("Intermediate " + skill + " (hands-on)", Course, 4),
      Step("Project: Build a " + skill + " project", Project, 3) ]
  }

  /** The skill of each entry, in order (what the page prints as each entry's heading). */
  function SkillsOf(roadmap: seq<RoadmapEntry>): (s: seq<string>)
    ensures |s| == |roadmap|
    ensures forall i :: 0 <= i < |s| ==> s[i] == roadmap[i].skill
  {
    seq(|roadmap|, i requires 0 <= i < |roadmap| => roadmap[i].skill)
  }

  /**
   * `build_learning_roadmap`: one entry per missing skill, in input order,
   * each holding that skill's three steps; reading the skills back gives the input.
   */
  method BuildLearningRoadmap(missingSkills: seq<string>) returns (roadmap: seq<RoadmapEntry>)
    ensures |roadmap| == |missingSkills|
    ensures SkillsOf(roadmap) == missingSkills
    ensures forall i :: 0 <= i < |roadmap| ==> roadmap[i].sequence == Steps(missingSkills[i])
  {
    roadmap := [];
    for i := 0 to |missingSkills|
      invariant |roadmap| == i
      invariant forall k :: 0 <= k < i ==>
        roadmap[k].skill == missingSkills[k] && roadmap[k].sequence == Steps(missingSkills[k])
    {
      roadmap := roadmap + [RoadmapEntry(missingSkills[i], Steps(missingSkills[i]))];
    }
  }

  // ----- Progress tracker -----

  /** The completed/total pair shown above the checkboxes. */
  datatype ProgressSummary = ProgressSummary(completed: nat, total: nat)

  /** The skills marked completed. */
  function CompletedSkills(done: map<string, bool>): set<string>
  {
    set k | k in done && done[k]
  }

  /** How many of `keys` are marked completed (the rows whose status is 'Completed'). */
  function CountCompleted(keys: seq<string>, done: map<string, bool>): (n: nat)
    requires forall k :: k in keys ==> k in done
    ensures n <= |keys|
  {
    if keys == [] then 0
    else CountCompleted(keys[..|keys| - 1], done) + (if done[keys[|keys| - 1]] then 1 else 0)
  }

  /** A repeat-free list has as many distinct members as it has elements. */
  lemma {:induction false} DistinctCount(keys: seq<string>)
    requires NoDups(keys)
    ensures |set k | k in keys| == |keys|
    decreases |keys|
  {
    if keys != [] {
      var init, x := keys[..|keys| - 1], keys[|keys| - 1];
      assert NoDups(init);
      DistinctCount(init);
      assert keys == init + [x];
      assert (set k | k in keys) == (set k | k in init) + {x};
    }
  }

  /** Over a repeat-free key list, the count is the number of completed skills among those keys. */
  lemma {:induction false} CountCompletedIsCard(keys: seq<string>, done: map<string, bool>)
    requires NoDups(keys)
    requires forall k :: k in keys ==> k in done
    ensures CountCompleted(keys, done) == |set k | k in keys && done[k]|
    decreases |keys|
  {
    if keys != [] {
      var init, x := keys[..|keys| - 1], keys[|keys| - 1];
      assert NoDups(init);
      CountCompletedIsCard(init, done);
      assert keys == init + [x];
      CompletedSnoc(init, x, done);
    }
  }

  /** Listing one more, new key adds one completed skill exactly when that key is marked completed. */
  lemma CompletedSnoc(init: seq<string>, x: string, done: map<string, bool>)
    requires x in done && x !in init
    requires forall k :: k in init ==> k in done
    ensures |set k | k in init + [x] && done[k]| == |set k | k in init && done[k]| + (if done[x] then 1 else 0)
  {
    var before := set k | k in init && done[k];
    var after := set k | k in init + [x] && done[k];
    if done[x] {
      assert after == before + {x};
    } else {
      assert after == before;
    }
  }

  /**
   * The progress dict `d`, with keys `ks` in insertion order, extends `done0`:
   * every key is listed once, the entries of `done0` keep their values and
   * the other entries are false.
   */
  ghost predicate Extends(done0: map<string, bool>, ks: seq<string>, d: map<string, bool>)
  {
    && NoDups(ks) && (forall k :: k in d <==> k in ks)
    && (forall k :: k in done0 ==> k in d && d[k] == done0[k])
    && (forall k :: k in d && k !in done0 ==> !d[k])
  }

  /** Adding an untracked skill with value false, as one pass of the progress-ensure loop does, keeps `Extends`. */
  lemma TrackStep(done0: map<string, bool>, ks: seq<string>, d: map<string, bool>, x: string)
    requires Extends(done0, ks, d) && x !in d
    ensures Extends(done0, ks + [x], d[x := false])
  {
    NoDupsSnoc(ks, x);
  }

  /** What the progress-ensure loop leaves behind once it has seen every skill. */
  lemma TrackedAll(keys0: seq<string>, done0: map<string, bool>, skills: seq<string>,
                   ks: seq<string>, d: map<string, bool>)
    requires forall k :: k in done0 <==> k in keys0
    requires Extends(done0, ks, d) && ks == AppendNew(keys0, skills)
    ensures NoDups(ks) && forall k :: k in d <==> k in ks
    ensures forall k :: k in d <==> k in done0 || k in skills
    ensures forall k :: k in done0 ==> k in d && d[k] == done0[k]
    ensures forall k :: k in d && k !in done0 ==> !d[k]
  {
  }

  /**
   * `st.session_state['progress']`: a dict from skill to completed flag, kept
   * as its keys in insertion order plus the map itself.
   */
  class ProgressTracker {
    var keys: seq<string>
    var done: map<string, bool>

    ghost predicate Valid()
      reads this
    {
      NoDups(keys) && forall k :: k in done <==> k in keys
    }

    /** The empty dict the page stores the first time the tracker is shown. */
    constructor ()
      ensures Valid() && keys == [] && done == map[]
    {
      keys := [];
      done := map[];
    }

    /**
     * The progress-ensure loop: every skill not yet tracked is added, in order,
     * with value false. No entry is removed or changed.
     */
    method EnsureTracked(skills: seq<string>)
      requires Valid()
      modifies this
      ensures Valid()
      ensures keys == AppendNew(old(keys), skills)
      ensures forall k :: k in done <==> k in old(done) || k in skills
      ensures forall k :: k in old(done) ==> done[k] == old(done)[k]
      ensures forall k :: k in done && k !in old(done) ==> !done[k]
    {
      var ks, d := keys, done;
      ghost var keys0, done0 := keys, done;
      for i := 0 to |skills|
        invariant Extends(done0, ks, d)
        invariant ks == AppendNew(keys0, skills[..i])
      {
        AppendNewPrefix(keys0, skills, i);
        if skills[i] !in d {
          TrackStep(done0, ks, d, skills[i]);
          ks := ks + [skills[i]];
          d := d[skills[i] := false];
        }
      }
      assert skills[..|skills|] == skills;
      TrackedAll(keys0, done0, skills, ks, d);
      keys, done := ks, d;
    }

    /** The checkbox write-back for one tracked skill. */
    method Mark(skill: string, value: bool)
      requires Valid() && skill in done
      modifies this
      ensures Valid()
      ensures keys == old(keys)
      ensures done == old(done)[skill := value]
    {
      done := done[skill := value];
    }

    /** The summary: total is the number of tracked skills, completed the number marked true. */
    function Summary(): (r: ProgressSummary)
      reads this
      requires Valid()
      ensures r.total == |done|
      ensures r.completed == |CompletedSkills(done)|
      ensures r.completed <= r.total
    {
      CountCompletedIsCard(keys, done);
      DistinctCount(keys);
      assert done.Keys == set k | k in keys;
      assert CompletedSkills(done) == set k | k in keys && done[k];
      ProgressSummary(CountCompleted(keys, done), |keys|)
    }

    /**
     * The summary as the page computes it: over an empty dict the DataFrame has
     * no `Status` column and the page fails instead of showing a summary.
     */
    function PageSummary(): (r: Option<ProgressSummary>)
      reads this
      requires Valid()
      ensures r.None? <==> done == map[]
      ensures r.Some? ==> r.value.total == |done| && r.value.completed == |CompletedSkills(done)|
    {
      if keys == [] then
        assert done.Keys == {};
        None
      else
        assert keys[0] in done;
        Some(Summary())
    }
  }

  /**
   * A tracker with no keys, which a fresh session keeps when the stored
   * profile has no skills and no missing skills (`EnsureTracked` of no skills
   * appends nothing), gets no summary from the page, where the intended
   * summary is 0 of 0.
   */
  lemma EmptyProgressHasNoSummary(p: ProgressTracker)
    requires p.Valid() && p.keys == []
    ensures p.PageSummary() == None
    ensures p.Summary() == ProgressSummary(0, 0)
  {
    assert p.done.Keys == {};
  }

  // ----- Resources -----

  /** How one resource item is shown: a link, or the item text as it stands. */
  datatype ResourceLine = Link(title: string, link: string) | Plain(text: string)

  /**
   * `item.split(":", 1)` with both halves stripped when the item holds a colon;
   * the item unchanged otherwise. A title never contains a colon.
   */
  function SplitResource(item: string): (r: ResourceLine)
    ensures r.Link? <==> ':' in item
    ensures r.Plain? ==> r.text == item
    ensures r.Link? ==> ':' !in r.title
  {
    if ':' in item then
      var i := FirstIndex(item, ':');
      var title := Strip(item[..i]);
      var k := StripStart(item[..i]);
      assert title == item[..i][k..k + |title|];
      Link(title, Strip(item[i + 1..]))
    else Plain(item)
  }

  /** Splitting at any colon with no colon before it gives the stripped halves. */
  lemma SplitResourceAt(before: string, after: string)
    requires ':' !in before
    ensures SplitResource(before + ":" + after) == Link(Strip(before), Strip(after))
  {
    var item := before + ":" + after;
    FirstIndexPrefix(before + ":", after, ':');
    FirstIndexLast(before, ':');
    assert item[..|before|] == before;
    assert item[|before| + 1..] == after;
  }

  /** The items shown for one skill: at most the first three, each split. */
  function ShownResources(items: seq<string>): (r: seq<ResourceLine>)
    ensures |r| <= 3
    ensures |r| == if |items| < 3 then |items| else 3
    ensures forall i :: 0 <= i < |r| ==> r[i] == SplitResource(items[i])
  {
    var shown := if |items| < 3 then items else items[..3];
    seq(|shown|, i requires 0 <= i < |shown| => SplitResource(shown[i]))
  }
}
