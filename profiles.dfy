/**
 * The records the pages keep in the session store: a career recommendation as
 * returned by the text-generation service, and a user's submitted profile.
 */
module Profiles {
  import opened Wrappers

  /** One entry of a recommendation's `resources` object: a skill and its `"title:link"` items, in order. */
  datatype ResourceGroup = ResourceGroup(skill: string, items: seq<string>)

  /**
   * One career recommendation. `missingSkills` is `None` when the reply had no
   * `missing_skills` key (the pages read it with `get('missing_skills', [])`).
   */
  datatype Recommendation = Recommendation(
    role: string,
    description: string,
    missingSkills: Option<seq<string>>,
    resources: seq<ResourceGroup>)

  /** A user's profile: `Empty` is the `{}` a new account starts with. */
  datatype Profile =
    | Empty
    | Submitted(
        name: string,
        education: string,
        currentYear: string,
        userSkills: seq<string>,
        interestsList: seq<string>,
        careerGoal: string,
        recs: seq<Recommendation>,
        allMissing: seq<string>)

  /** `r.get('missing_skills', [])`. */
  function MissingOf(r: Recommendation): seq<string>
  {
    r.missingSkills.GetOr([])
  }
}
