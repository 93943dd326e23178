/**
 * The profile page: turning the free-text skills and interests fields into
 * skill tags, and merging the recommendations' missing skills.
 */
module ProfileForm {
  import opened Wrappers
  import opened Strings
  import opened OrderedSets
  import opened Profiles
  import Accounts

  /** The character map `normalize_skill` applies after stripping: lower-case, and `-` or space to `_`. */
  function TagChar(c: char): (d: char)
    ensures d != '-' && d != ' ' && !IsUpper(d)
    ensures IsSpace(d) <==> IsSpace(c) && c != ' '
  {
    if c == '-' || c == ' ' then '_' else LowerChar(c)
  }

  /**
   * `normalize_skill`: strip, lower-case, then replace `-` and space by `_`.
   * The result has no `-`, no space, no upper-case letter and no surrounding
   * whitespace, and is empty exactly when the input is blank.
   */
  function NormalizeSkill(s: string): (r: string)
    ensures '-' !in r && ' ' !in r
    ensures Trimmed(r)
    ensures forall i :: 0 <= i < |r| ==> !IsUpper(r[i])
    ensures r == [] <==> IsBlank(s)
    ensures |r| == |Strip(s)| && forall i :: 0 <= i < |r| ==> r[i] == TagChar(Strip(s)[i])
  {
    var r := Replace(Replace(Lower(Strip(s)), '-', '_'), ' ', '_');
    ReplacedIsTagChars(Strip(s));
    BlankIffStripEmpty(s);
    r
  }

  /** `TagChar` applied to every character; a trimmed input gives a trimmed result. */
  function TagChars(t: string): (r: string)
    ensures |r| == |t| && forall i :: 0 <= i < |t| ==> r[i] == TagChar(t[i])
    ensures '-' !in r && ' ' !in r
    ensures forall i :: 0 <= i < |r| ==> !IsUpper(r[i])
    ensures Trimmed(t) ==> Trimmed(r)
  {
    seq(|t|, i requires 0 <= i < |t| => TagChar(t[i]))
  }

  /** Lower-casing and then replacing `-` and space by `_` is `TagChar` on every character. */
  lemma ReplacedIsTagChars(t: string)
    ensures Replace(Replace(Lower(t), '-', '_'), ' ', '_') == TagChars(t)
  {
    var r := Replace(Replace(Lower(t), '-', '_'), ' ', '_');
    forall i | 0 <= i < |t|
      ensures r[i] == TagChar(t[i])
    {
      assert Lower(t)[i] == LowerChar(t[i]);
    }
  }

  /** A canonical skill tag: what a non-blank comma-free, newline-free segment normalises to. */
  predicate IsTag(x: string) {
    x != [] && Trimmed(x) && '-' !in x && ' ' !in x && ',' !in x && '\n' !in x
    && forall i :: 0 <= i < |x| ==> !IsUpper(x[i])
  }

  /** A trimmed string with no `-`, no space and no upper-case letter is left alone by `normalize_skill`. */
  lemma NormalFixedPoint(x: string)
    requires Trimmed(x) && '-' !in x && ' ' !in x
    requires forall i :: 0 <= i < |x| ==> !IsUpper(x[i])
    ensures NormalizeSkill(x) == x
  {
    StripTrimmed(x);
    var n := NormalizeSkill(x);
    forall i | 0 <= i < |x|
      ensures n[i] == x[i]
    {
      assert n[i] == TagChar(x[i]);
    }
  }

  /** A tag is not blank and is its own normal form. */
  lemma TagFixedPoint(x: string)
    requires IsTag(x)
    ensures !IsBlank(x) && NormalizeSkill(x) == x
  {
    StripTrimmed(x);
    NormalFixedPoint(x);
  }

  /** `normalize_skill` is idempotent. */
  lemma NormalizeIdempotent(s: string)
    ensures NormalizeSkill(NormalizeSkill(s)) == NormalizeSkill(s)
  {
    NormalFixedPoint(NormalizeSkill(s));
  }

  /** The comma-separated segments of a text field, a newline counting as a comma. */
  function Segments(text: string): (ps: seq<string>)
    ensures |ps| >= 1
    ensures forall p :: p in ps ==> ',' !in p && '\n' !in p
    ensures Join(ps, ',') == Replace(text, '\n', ',')
  {
    var t := Replace(text, '\n', ',');
    var ps := Split(t, ',');
    forall p | p in ps
      ensures '\n' !in p
    {
      JoinHolds(ps, ',', p);
    }
    ps
  }

  /** Every character of a piece appears in the joined string. */
  lemma {:induction false} JoinHolds(ps: seq<string>, sep: char, p: string)
    requires p in ps
    ensures forall c :: c in p ==> c in Join(ps, sep)
  {
    if |ps| > 1 && p != ps[0] {
      JoinHolds(ps[1..], sep, p);
    }
  }

  /** The segments kept by `if s.strip()`: the non-blank ones, in order. */
  function NonBlank(ps: seq<string>): (r: seq<string>)
    ensures |r| <= |ps|
    ensures forall p :: p in r <==> p in ps && !IsBlank(p)
  {
    if ps == [] then []
    else (if IsBlank(ps[0]) then [] else [ps[0]]) + NonBlank(ps[1..])
  }

  /** The filter keeps order and repeats: filtering a concatenation is concatenating the filtered parts. */
  lemma {:induction false} NonBlankConcat(a: seq<string>, b: seq<string>)
    ensures NonBlank(a + b) == NonBlank(a) + NonBlank(b)
    decreases |a|
  {
    if a != [] {
      NonBlankConcat(a[1..], b);
      NonBlankHead(a, b);
      ConcatAssoc(if IsBlank(a[0]) then [] else [a[0]], NonBlank(a[1..]), NonBlank(b));
    } else {
      assert NonBlank(a) == [];
      assert a + b == b;
    }
  }

  /** Regrouping a concatenation of three lists. */
  lemma ConcatAssoc(x: seq<string>, y: seq<string>, z: seq<string>)
    ensures x + (y + z) == (x + y) + z
  {
  }

  /** One unfolding of the filter over a concatenation with a non-empty front. */
  lemma NonBlankHead(a: seq<string>, b: seq<string>)
    requires a != []
    ensures NonBlank(a + b) == (if IsBlank(a[0]) then [] else [a[0]]) + NonBlank(a[1..] + b)
  {
    assert (a + b)[0] == a[0];
    assert (a + b)[1..] == a[1..] + b;
  }

  /** Each non-blank segment is kept as often as it occurs; blank ones never are. */
  lemma {:induction false} NonBlankCounts(ps: seq<string>)
    ensures forall p :: multiset(NonBlank(ps))[p] == if IsBlank(p) then 0 else multiset(ps)[p]
  {
    if ps != [] {
      NonBlankCounts(ps[1..]);
      assert ps == [ps[0]] + ps[1..];
      assert multiset(ps) == multiset([ps[0]]) + multiset(ps[1..]);
    }
  }

  lemma {:induction false} NonBlankKeepsAll(ps: seq<string>)
    requires forall p :: p in ps ==> !IsBlank(p)
    ensures NonBlank(ps) == ps
  {
    if ps != [] {
      assert ps[0] in ps;
      var head := ps[0];
      assert !IsBlank(head);
      assert forall p :: p in ps[1..] ==> p in ps;
      NonBlankKeepsAll(ps[1..]);
      assert [head] + ps[1..] == ps;
    }
  }

  /** The interests list: every non-blank segment, normalised, duplicates kept. */
  function InterestsList(text: string): seq<string>
  {
    NormalizeAll(NonBlank(Segments(text)))
  }

  /** `normalize_skill` applied to every segment, in order. */
  function NormalizeAll(ps: seq<string>): (r: seq<string>)
    ensures |r| == |ps| && forall i :: 0 <= i < |ps| ==> r[i] == NormalizeSkill(ps[i])
  {
    seq(|ps|, i requires 0 <= i < |ps| => NormalizeSkill(ps[i]))
  }

  /**
   * The interests list has one entry per non-blank segment, that segment
   * normalised, and each entry is a tag.
   */
  lemma InterestsListSegments(text: string)
    ensures |InterestsList(text)| == |NonBlank(Segments(text))|
    ensures forall i :: 0 <= i < |InterestsList(text)| ==>
      InterestsList(text)[i] == NormalizeSkill(NonBlank(Segments(text))[i])
    ensures forall x :: x in InterestsList(text) ==> IsTag(x)
  {
    var ps := NonBlank(Segments(text));
    var r := InterestsList(text);
    SegmentTags(ps);
    forall x | x in r
      ensures IsTag(x)
    {
      var i :| 0 <= i < |r| && r[i] == x;
    }
  }

  /** Non-blank segments free of commas and newlines normalise to tags. */
  lemma SegmentTags(ps: seq<string>)
    requires forall p :: p in ps ==> ',' !in p && '\n' !in p && !IsBlank(p)
    ensures forall i :: 0 <= i < |ps| ==> IsTag(NormalizeSkill(ps[i]))
  {
    forall i | 0 <= i < |ps|
      ensures IsTag(NormalizeSkill(ps[i]))
    {
      assert ps[i] in ps;
      SegmentTag(ps[i]);
    }
  }

  /** A non-blank segment normalises to a tag. */
  lemma SegmentTag(p: string)
    requires ',' !in p && '\n' !in p && !IsBlank(p)
    ensures IsTag(NormalizeSkill(p))
  {
    var t := Strip(p);
    var n := NormalizeSkill(p);
    var k := StripStart(p);
    assert t == p[k..k + |t|];
    forall i | 0 <= i < |n|
      ensures n[i] != ',' && n[i] != '\n'
    {
      assert n[i] == TagChar(t[i]);
      assert t[i] == p[k + i] && p[k + i] in p;
    }
  }

  /**
   * `interpret_user_skills`: the interests-style list of tags with repeats
   * dropped, first occurrence kept. Nothing else is added or lost and the
   * order of first occurrence is kept.
   */
  function InterpretUserSkills(text: string): (r: seq<string>)
    ensures NoDups(r)
    ensures forall x :: x in r <==> x in InterestsList(text)
    ensures forall i, j :: 0 <= i < j < |r| ==>
      FirstIndex(InterestsList(text), r[i]) < FirstIndex(InterestsList(text), r[j])
    ensures forall x :: x in r ==> IsTag(x)
  {
    InterestsListSegments(text);
    if text == [] then
      assert Segments(text) == [[]];
      assert IsBlank([]);
      []
    else Dedup(InterestsList(text))
  }

  /** The empty-text guard of `interpret_user_skills` is redundant: skills are always the de-duplicated interests parse. */
  lemma SkillsAreDedupedInterests(text: string)
    ensures InterpretUserSkills(text) == Dedup(InterestsList(text))
  {
    if text == [] {
      assert Segments(text) == [[]];
      assert IsBlank([]);
    }
  }

  /** Newline and comma are interchangeable separators in both fields. */
  lemma NewlineIsComma(text: string)
    ensures InterestsList(Replace(text, '\n', ',')) == InterestsList(text)
    ensures InterpretUserSkills(Replace(text, '\n', ',')) == InterpretUserSkills(text)
  {
    var t := Replace(text, '\n', ',');
    ReplaceAbsent(t, '\n', ',');
    SkillsAreDedupedInterests(text);
    SkillsAreDedupedInterests(t);
  }

  /** Re-parsing the comma-joined skill list gives the same list back. */
  lemma InterpretIdempotent(text: string)
    ensures InterpretUserSkills(Join(InterpretUserSkills(text), ',')) == InterpretUserSkills(text)
  {
    ReparseTags(InterpretUserSkills(text));
  }

  /**
   * Parsing the comma-joined form of any list of tags as interests gives the
   * same list back, repeats included: the interests list is not de-duplicated.
   */
  lemma InterestsOfJoin(r: seq<string>)
    requires forall x :: x in r ==> IsTag(x)
    ensures InterestsList(Join(r, ',')) == r
  {
    var j := Join(r, ',');
    if r == [] {
      assert Segments(j) == [[]];
      assert IsBlank([]);
    } else {
      forall i | 0 <= i < |r|
        ensures ',' !in r[i] && '\n' !in r[i] && !IsBlank(r[i]) && NormalizeSkill(r[i]) == r[i]
      {
        assert r[i] in r;
        TagFixedPoint(r[i]);
      }
      InterestsOfPieces(r, r);
    }
  }

  /** Any repeat-free list of tags is what parsing its comma-joined form as skills yields. */
  lemma ReparseTags(r: seq<string>)
    requires NoDups(r)
    requires forall x :: x in r ==> IsTag(x)
    ensures InterpretUserSkills(Join(r, ',')) == r
  {
    InterestsOfJoin(r);
    SkillsAreDedupedInterests(Join(r, ','));
    DedupNoDups(r);
  }

  /** The segments of a comma-joined list of comma-free, newline-free pieces are those pieces. */
  lemma SegmentsOfJoin(ps: seq<string>)
    requires |ps| >= 1
    requires forall p :: p in ps ==> ',' !in p && '\n' !in p
    ensures Segments(Join(ps, ',')) == ps
  {
    var j := Join(ps, ',');
    JoinAvoids(ps, ',', '\n');
    ReplaceAbsent(j, '\n', ',');
    SplitJoin(ps, ',');
  }

  /** `normalize_skill` only looks at the stripped text. */
  lemma NormalizeOfStrip(s: string, t: string)
    requires Strip(s) == Strip(t)
    ensures NormalizeSkill(s) == NormalizeSkill(t)
  {
    var a, b := NormalizeSkill(s), NormalizeSkill(t);
    assert forall i :: 0 <= i < |a| ==> a[i] == b[i];
  }

  /**
   * The form pre-fills the interests box with the stored list joined by `", "`;
   * submitting it unchanged stores the same list again.
   */
  lemma PrefilledInterestsReparse(r: seq<string>)
    requires forall x :: x in r ==> IsTag(x)
    ensures InterestsList(JoinWith(r, ", ")) == r
  {
    if r == [] {
      assert Segments([]) == [[]];
      assert IsBlank([]);
    } else {
      assert ", " == [','] + " ";
      JoinWithAsJoin(r, ',', " ");
      var q := [r[0]] + Padded(r[1..], " ");
      PaddedTags(r, q);
      InterestsOfPieces(q, r);
    }
  }

  /**
   * The interests list of a comma join of non-blank pieces free of commas and
   * newlines is the list of those pieces normalised.
   */
  lemma InterestsOfPieces(q: seq<string>, r: seq<string>)
    requires |q| >= 1 && |r| == |q|
    requires forall i :: 0 <= i < |q| ==>
      ',' !in q[i] && '\n' !in q[i] && !IsBlank(q[i]) && NormalizeSkill(q[i]) == r[i]
    ensures InterestsList(Join(q, ',')) == r
  {
    InterestsOfKept(q);
    NormalizeAllIs(q, r);
  }

  /** The interests list of a comma join of non-blank pieces free of commas and newlines normalises those pieces. */
  lemma InterestsOfKept(q: seq<string>)
    requires |q| >= 1
    requires forall i :: 0 <= i < |q| ==> ',' !in q[i] && '\n' !in q[i] && !IsBlank(q[i])
    ensures InterestsList(Join(q, ',')) == NormalizeAll(q)
  {
    NonBlankSegmentsOfJoin(q);
  }

  /** A list whose entries are the normal forms of `q` is `NormalizeAll(q)`. */
  lemma NormalizeAllIs(q: seq<string>, r: seq<string>)
    requires |r| == |q| && forall i :: 0 <= i < |q| ==> NormalizeSkill(q[i]) == r[i]
    ensures NormalizeAll(q) == r
  {
  }

  /** The kept segments of a comma join of non-blank pieces free of commas and newlines are those pieces. */
  lemma NonBlankSegmentsOfJoin(q: seq<string>)
    requires |q| >= 1
    requires forall i :: 0 <= i < |q| ==> ',' !in q[i] && '\n' !in q[i] && !IsBlank(q[i])
    ensures NonBlank(Segments(Join(q, ','))) == q
  {
    forall p | p in q
      ensures ',' !in p && '\n' !in p && !IsBlank(p)
    {
      var i :| 0 <= i < |q| && q[i] == p;
    }
    SegmentsOfJoin(q);
    NonBlankKeepsAll(q);
  }

  /** The pieces of `", ".join(r)` split at the commas: each is a tag, possibly after one space, that normalises back to it. */
  lemma PaddedTags(r: seq<string>, q: seq<string>)
    requires |r| >= 1 && forall x :: x in r ==> IsTag(x)
    requires q == [r[0]] + Padded(r[1..], " ")
    ensures |q| == |r|
    ensures forall i :: 0 <= i < |q| ==> ',' !in q[i] && '\n' !in q[i] && !IsBlank(q[i]) && NormalizeSkill(q[i]) == r[i]
  {
    forall i | 0 <= i < |q|
      ensures ',' !in q[i] && '\n' !in q[i] && !IsBlank(q[i]) && NormalizeSkill(q[i]) == r[i]
    {
      assert r[i] in r;
      if i == 0 {
        TagFixedPoint(r[i]);
      } else {
        assert q[i] == " " + r[i];
        PaddedTag(r[i]);
      }
    }
  }

  /** A tag after one space is a segment that normalises back to the tag. */
  lemma PaddedTag(x: string)
    requires IsTag(x)
    ensures ',' !in " " + x && '\n' !in " " + x && !IsBlank(" " + x) && NormalizeSkill(" " + x) == x
  {
    NormalizePadded(x);
    assert (" " + x)[1] == x[0];
  }

  /** `normalize_skill` drops the space `", ".join` puts before a tag. */
  lemma NormalizePadded(x: string)
    requires IsTag(x)
    ensures NormalizeSkill(" " + x) == x
  {
    TagFixedPoint(x);
    StripLeadingSpace(x);
    StripTrimmed(x);
    NormalizeOfStrip(" " + x, x);
  }

  /**
   * The form pre-fills the skills box with the stored skill list joined by
   * `", "`; submitting it unchanged stores the same list again.
   */
  lemma PrefilledSkillsReparse(r: seq<string>)
    requires NoDups(r)
    requires forall x :: x in r ==> IsTag(x)
    ensures InterpretUserSkills(JoinWith(r, ", ")) == r
  {
    PrefilledInterestsReparse(r);
    SkillsAreDedupedInterests(JoinWith(r, ", "));
    DedupNoDups(r);
  }

  /**
   * Re-submitting the form as pre-filled from a stored profile (both lists
   * joined by `", "`) stores the same skills and interests again.
   */
  lemma ResubmitUnchanged(skillsText: string, interestsText: string)
    ensures var skills := InterpretUserSkills(skillsText);
      InterpretUserSkills(JoinWith(skills, ", ")) == skills
    ensures var interests := InterestsList(interestsText);
      InterestsList(JoinWith(interests, ", ")) == interests
  {
    PrefilledSkillsReparse(InterpretUserSkills(skillsText));
    InterestsListSegments(interestsText);
    PrefilledInterestsReparse(InterestsList(interestsText));
  }

  /** The concatenation of every recommendation's missing skills, in order. */
  function AllMissingSkills(recs: seq<Recommendation>): (s: seq<string>)
    ensures forall m :: m in s <==> exists i :: 0 <= i < |recs| && m in MissingOf(recs[i])
  {
    if recs == [] then []
    else
      var init := recs[..|recs| - 1];
      var s := AllMissingSkills(init);
      assert forall i :: 0 <= i < |init| ==> init[i] == recs[i];
      s + MissingOf(recs[|recs| - 1])
  }

  /**
   * The `all_missing` merge: every recommendation's missing skills, without
   * repeats, in the order first seen.
   */
  method MergeMissing(recs: seq<Recommendation>) returns (all: seq<string>)
    ensures all == Dedup(AllMissingSkills(recs))
    ensures NoDups(all)
    ensures forall i, m :: 0 <= i < |recs| && m in MissingOf(recs[i]) ==> m in all
    ensures forall m :: m in all ==> exists i :: 0 <= i < |recs| && m in MissingOf(recs[i])
    ensures forall i, j :: 0 <= i < j < |all| ==>
      FirstIndex(AllMissingSkills(recs), all[i]) < FirstIndex(AllMissingSkills(recs), all[j])
  {
    all := [];
    var i := 0;
    while i < |recs|
      invariant 0 <= i <= |recs|
      invariant all == AppendNew([], AllMissingSkills(recs[..i]))
    {
      var ms := MissingOf(recs[i]);
      ghost var start := all;
      var j := 0;
      while j < |ms|
        invariant 0 <= j <= |ms|
        invariant all == AppendNew(start, ms[..j])
      {
        AppendNewPrefix(start, ms, j);
        if ms[j] !in all {
          all := all + [ms[j]];
        }
        j := j + 1;
      }
      assert ms[..j] == ms;
      AppendNewConcat([], AllMissingSkills(recs[..i]), ms);
      assert recs[..i + 1][..i] == recs[..i];
      i := i + 1;
    }
    assert recs[..i] == recs;
  }

  /** The profile stored for a submission: the parsed fields, the recommendations and their merged missing skills. */
  function SubmittedProfile(name: string, education: string, currentYear: string,
                            skillsText: string, interestsText: string, careerGoal: string,
                            recs: seq<Recommendation>): Profile
  {
    Submitted(name, education, currentYear, InterpretUserSkills(skillsText), InterestsList(interestsText),
              careerGoal, recs, Dedup(AllMissingSkills(recs)))
  }

  /**
   * The Analyze button once the recommendations are back: when there is at
   * least one, the signed-in user's profile is replaced by the parsed form
   * fields, the recommendations and their merged missing skills; otherwise
   * nothing is stored.
   */
  method SubmitProfile(session: Accounts.Session, name: string, education: string, currentYear: string,
                       skillsText: string, interestsText: string, careerGoal: string,
                       recs: seq<Recommendation>)
    requires session.Valid() && session.authenticated == Some(true)
    modifies session
    ensures session.Valid()
    ensures session.authenticated == old(session.authenticated) && session.username == old(session.username)
    ensures session.page == old(session.page)
    ensures recs == [] ==> session.users == old(session.users)
    ensures recs != [] ==>
      session.users == Some(old(session.users.value)[old(session.username.value) := Accounts.Account(
        old(session.users.value)[old(session.username.value)].password,
        SubmittedProfile(name, education, currentYear, skillsText, interestsText, careerGoal, recs))])
  {
    var userSkills := InterpretUserSkills(skillsText);
    var interestsList := InterestsList(interestsText);
    if recs != [] {
      var allMissing := MergeMissing(recs);
      var u := session.username.value;
      var store := session.users.value;
      var profile := Submitted(name, education, currentYear, userSkills, interestsList, careerGoal, recs, allMissing);
      session.users := Some(store[u := Accounts.Account(store[u].password, profile)]);
    }
  }
}
