# CareerEdge career advisor: a verified model of its core logic

CareerEdge is a Streamlit app. A user signs up or logs in against an in-memory
account store, and submits a profile (education, skills, interests, career goal).
The app then gets three career recommendations from a text-generation service.
A results page shows a learning roadmap for the missing skills and a progress tracker.

The model covers the logic under the UI:

- **Skill tags** (`pages/Profile_Form.py`): `normalize_skill`, `interpret_user_skills`,
  the interests list and the `all_missing` merge. It also covers how the profile is
  stored in the signed-in user's account.
- **Results** (`pages/Results.py`): `build_learning_roadmap`, the progress dict and the
  loop that adds untracked skills to it, the completed/total summary, and the split of a
  `"title:link"` resource item, of which at most three are shown per skill.
- **Accounts** (`app.py`): the session-state initialisation, login, signup and logout.
  These are modelled as a class over the users map and the login flags.

Modules: `Wrappers` (Option), `Strings` (Python's `strip`, `lower`, `replace`, `split`
and `join`), `OrderedSets` (repeat-free lists, `AppendNew` for "append if not already
present", `Dedup` for `list(dict.fromkeys(...))`), `Profiles` (the stored records),
`ProfileForm`, `Results` and `Accounts`.

Session-state entries that may still be absent are `Option` fields of
`Accounts.Session`. The results page's `progress` dict is a `Results.ProgressTracker`.
It holds its keys as a repeat-free `seq`, to keep the dict's insertion order, and a
`map` from skill to completed flag. The text-generation call is not modelled: its
result, the list of recommendations, is a parameter of `ProfileForm.SubmitProfile`.

The progress dict is kept once per browser session in `st.session_state['progress']`
(pages/Results.py:80-87), not once per user, so signing in as another user in the same
session keeps the previous user's entries. The checkbox write-back only touches skills the
page has just listed (pages/Results.py:114-115), so `Mark` requires the skill to be tracked.

## Model

| member | source | states |
|---|---|---|
| `Strings.Strip` | pages/Profile_Form.py:12 | `strip()`: the result is a slice of the input that neither starts nor ends with whitespace; every non-whitespace character of the input lies inside it |
| `Strings.BlankIffStripEmpty` | pages/Profile_Form.py:17 | a segment is blank (all whitespace) exactly when `strip()` leaves the empty string, so `if s.strip()` drops exactly the all-whitespace segments |
| `Strings.StripLeadingSpace` | pages/Profile_Form.py:106-107 | `strip()` removes the single space `", ".join` puts before a trimmed, non-empty piece |
| `Strings.Lower` | pages/Profile_Form.py:12 | `lower()` on ASCII: same length, each `A`-`Z` becomes the matching `a`-`z` (code point plus 32), every other character is kept, no upper-case letter is left |
| `Strings.Replace` | pages/Profile_Form.py:12 | one-character `replace`: each occurrence becomes the new character, every other character is kept, none of the old character remains |
| `Strings.Split` | pages/Profile_Form.py:17 | `split(',')`: at least one piece, no piece holds the separator, and joining the pieces gives back the input |
| `Strings.SplitJoin` | pages/Profile_Form.py:17 | splitting a join of separator-free pieces gives back exactly those pieces |
| `Strings.JoinWith` | pages/Profile_Form.py:106-107 | `", ".join(ps)` for a separator string: the pieces in order with the separator between neighbours, empty for no pieces; related to the comma join by the `JoinWithAsJoin` row |
| `Strings.JoinWithAsJoin` | pages/Profile_Form.py:106-107 | `", ".join(ps)` is the comma join of the pieces with a space put in front of every piece after the first |
| `ProfileForm.NormalizeSkill` | pages/Profile_Form.py:11-12 | the tag has no `-`, no space, no upper-case letter and no surrounding whitespace; it is empty exactly when the input is blank; character by character it is the stripped input lower-cased with `-` and space mapped to `_` |
| `ProfileForm.NormalizeIdempotent` | pages/Profile_Form.py:12 | normalising a tag again changes nothing |
| `ProfileForm.Segments` | pages/Profile_Form.py:17 | `replace('\n', ',').split(',')`: at least one segment, none holding a comma or a newline, and the comma join of the segments is the text with every newline replaced by a comma |
| `ProfileForm.NonBlank` | pages/Profile_Form.py:17 | the `if s.strip()` filter: a segment is in the result iff it is a non-blank segment of the input |
| `ProfileForm.NonBlankConcat` | pages/Profile_Form.py:17 | the filter keeps order: filtering a concatenation is concatenating the filtered parts |
| `ProfileForm.NonBlankCounts` | pages/Profile_Form.py:17 | the filter keeps repeats: each non-blank segment occurs in the result as often as in the input, each blank one not at all |
| `ProfileForm.InterpretUserSkills` | pages/Profile_Form.py:14-18 | the skill list has no repeats and the same members as the interests-style parse, in order of first occurrence; every entry is a tag; empty text gives the empty list |
| `ProfileForm.SkillsAreDedupedInterests` | pages/Profile_Form.py:15-18 | the empty-text guard is subsumed: the skills are always `Dedup` of the interests-style parse of the same text |
| `ProfileForm.InterestsList` | pages/Profile_Form.py:120 | the line-120 comprehension: `NormalizeAll(NonBlank(Segments(text)))`, the non-blank segments normalised, repeats kept; its properties are the `InterestsListSegments`, `InterestsOfJoin` and `NewlineIsComma` rows |
| `ProfileForm.InterestsListSegments` | pages/Profile_Form.py:120 | the interests list has one entry per non-blank segment: entry i is segment i normalised, and every entry is a tag |
| `ProfileForm.InterestsOfJoin` | pages/Profile_Form.py:120 | the interests list is not de-duplicated: parsing the comma join of any tag list, repeats included, gives that list back |
| `ProfileForm.NewlineIsComma` | pages/Profile_Form.py:17 | replacing every newline by a comma changes neither the skills nor the interests parse |
| `ProfileForm.InterpretIdempotent` | pages/Profile_Form.py:14-18 | parsing the comma-joined skill list again gives the same list |
| `ProfileForm.ReparseTags` | pages/Profile_Form.py:17-18 | every repeat-free list of tags is the parse of its own comma join |
| `ProfileForm.ResubmitUnchanged` | pages/Profile_Form.py:106-120 | re-submitting the form as pre-filled with the `", "`-joined stored skills and interests stores the same two lists again |
| `Profiles.MissingOf` | pages/Profile_Form.py:143 | `r.get('missing_skills', [])`: the recommendation's missing skills, or the empty list when the key is absent |
| `ProfileForm.AllMissingSkills` | pages/Profile_Form.py:142-143 | a skill occurs in the concatenation iff it is in some recommendation's `missing_skills`; a recommendation without the key contributes nothing |
| `ProfileForm.MergeMissing` | pages/Profile_Form.py:141-145 | the nested loop returns `Dedup` of all missing skills: no repeats, every recommendation's missing skill present, nothing else, in first-seen order |
| `ProfileForm.SubmitProfile` | pages/Profile_Form.py:119-146 | for a well-shaped recommendation list (see Left out): with at least one recommendation, only the signed-in user's profile is replaced, by the parsed skills, interests, recommendations and merged missing skills, and the password is kept; with none, the users map is unchanged |
| `OrderedSets.AppendNew` | pages/Profile_Form.py:141-145 | the accumulator stays a prefix, the members are the union, only absent elements are appended, and no repeat is introduced |
| `OrderedSets.AppendNewOrder` | pages/Results.py:85-87 | appended elements come in the order of their first occurrence in the input |
| `OrderedSets.AppendNewCovered` | pages/Results.py:85-87 | when every element is already present, nothing is appended, so re-running the loop adds no keys |
| `OrderedSets.Dedup` | pages/Profile_Form.py:18 | `dict.fromkeys` order: no repeats, the same members as the input, in strictly increasing order of first occurrence |
| `OrderedSets.DedupUnique` | pages/Profile_Form.py:18 | those three properties determine the result: any list with them equals `Dedup` |
| `OrderedSets.DedupNoDups` | pages/Profile_Form.py:18 | a list without repeats is its own de-duplication |
| `Results.Steps` | pages/Results.py:14-18 | three steps: course, course, project, of 2, 4 and 3 weeks, titled "Foundations of s", "Intermediate s (hands-on)" and "Project: Build a s project" |
| `Results.BuildLearningRoadmap` | pages/Results.py:9-20 | one entry per input skill, in order (reading the skills back gives the input; empty gives empty); entry i holds `Steps(missing_skills[i])` |
| `Results.ProgressTracker.constructor` | pages/Results.py:80-81 | the progress dict starts empty |
| `Results.ProgressTracker.EnsureTracked` | pages/Results.py:83-87 | called with `user_skills + all_missing`: afterwards every given skill is a key; old keys keep their values; new keys map to false; no key is removed; new keys are appended after the old ones in first-seen order |
| `Results.TrackStep` | pages/Results.py:86-87 | adding an untracked skill with value false keeps the dict an extension of the one before the loop: each key listed once, old values kept, new values false |
| `Results.ProgressTracker.Mark` | pages/Results.py:114-115 | the write-back sets one tracked skill's flag and changes nothing else |
| `Results.ProgressTracker.Summary` | pages/Results.py:89-95 | total is the number of keys, completed the number of skills marked true, and completed is at most total; an empty dict gives 0 of 0 (the intended summary, see Findings) |
| `Results.ProgressTracker.PageSummary` | pages/Results.py:89-95 | the summary as the code computes it: none exactly when the dict is empty, otherwise the same counts as `Summary` |
| `Results.EmptyProgressHasNoSummary` | pages/Results.py:83-95 | an empty tracker, which `EnsureTracked` of no skills leaves empty, gets no summary from the page, where `Summary` gives 0 of 0 |
| `Results.CountCompletedIsCard` | pages/Results.py:94 | counting the completed rows over the repeat-free key list gives the number of completed skills |
| `Results.DistinctCount` | pages/Results.py:95 | a repeat-free key list has as many rows as distinct keys |
| `Results.SplitResource` | pages/Results.py:62-66 | a link exactly when the item holds a colon, and then the title holds no colon; otherwise the item is shown whole |
| `Results.SplitResourceAt` | pages/Results.py:63-64 | an item split at its first colon gives the stripped text before it as title and the stripped remainder as link |
| `Results.ShownResources` | pages/Results.py:61-66 | at most three lines, one per leading item, each split as above |
| `Accounts.InitialUsers` | app.py:31 | the initial users dict: the one demo account test@example.com with password "password123" and an empty profile; its login behaviour is the `DemoAccount` row |
| `Accounts.CredentialsMatch` | app.py:67 | the login test: the email is a key of the users dict and its stored password equals the one entered |
| `Accounts.DemoAccount` | app.py:31 | the initial store lets test@example.com log in with exactly "password123", and no other email logs in |
| `Accounts.SignupThenLogin` | app.py:91-96 | after registering a new email, that email logs in with its password, and no other login changes |
| `Accounts.Session.constructor` | app.py:28-33 | a new session stores nothing yet |
| `Accounts.Session.Initialise` | app.py:28-33 | only absent entries are filled, `authenticated` with false, `users` with the demo store and `page` with "dashboard"; on an initialised session it changes nothing |
| `Accounts.Session.Login` | app.py:66-73 | succeeds iff the email is registered and its stored password equals the one entered; on success it signs that email in; on failure nothing changes; the users map never changes |
| `Accounts.Session.Signup` | app.py:90-98 | fails iff the email is registered, leaving everything unchanged; otherwise it inserts just that email with the password and an empty profile and signs it in |
| `Accounts.Session.Logout` | app.py:107-110 | `authenticated` becomes false and `username` becomes "Guest"; the users map is untouched |

## Left out

- Streamlit rendering: columns, markdown and HTML, forms, spinners, tabs, `st.stop`, `st.rerun`, the charts and the page gates. The gates only decide which operation the user can reach.
- `generate_career_recommendations` (pages/Profile_Form.py:20-67) calls a remote text-generation service and a JSON parser. It returns `[]` when the API key is missing (lines 21-25) or the reply cannot be parsed (lines 59-67). A failure of `generate_content` itself (lines 56-57), or of `response.text` inside the `except` at line 66, is not caught and ends the page run, so nothing is stored, as with `recs == []` in `SubmitProfile`. The model takes the returned list as a parameter of `SubmitProfile`, and no error taxonomy is modelled.
- `load_lottieurl` and `load_css`: network and file I/O.
- `ProfileForm.SubmitProfile`: the recommendation list is assumed to have the shape the prompt asks for: a list of objects with `role`, `description` and `resources`, and with `missing_skills` absent or a list of strings. The code checks nothing beyond `if recs:` (pages/Profile_Form.py:130). On some other truthy replies, such as a JSON object, a number or `"missing_skills": null`, the code first stores the profile with `'all_missing': []` (lines 131-140) and then fails in the merge loop (lines 142-143). On others it completes with values the model's types cannot hold. A `missing_skills` string is merged character by character, and non-string entries are merged as they are. A recommendation without `role` or `resources` is stored and fails only on the results page (pages/Results.py:51, 59). The model does the store in one step and covers only well-shaped replies.
- The pandas DataFrame and the plotly charts (pages/Results.py:89-109). The summary counts are modelled directly over the progress state.
- The checkbox loop at pages/Results.py:114-115: the new value comes from a widget. It is modelled as `Mark` on one tracked skill.
- `Strings.Lower`: Unicode case mapping is not modelled, only ASCII `A`-`Z`.
- `Strings.Strip`: only ASCII whitespace is stripped. Python also strips non-ASCII spaces such as U+00A0.
- `Strings.Split` and `Strings.Replace`: modelled only for one-character separators and patterns, the only ones the pages use.
- The display text built from the data: `capitalize()` of skill names and user names, and the prompt f-string (pages/Profile_Form.py:27-54).
- The form's default values for name and education (pages/Profile_Form.py:99-103). Only the pre-filled skills and interests boxes are modelled, by `ResubmitUnchanged`.
- Worked examples, such as "Python, SQL, Machine Learning" giving ["python","sql","machine_learning"], are not separate lemmas. They are instances of the contracts of `InterpretUserSkills` and `NormalizeSkill`.

## Findings

| source | as written | input that shows it | evidently intended | confidence | as-written member | corrected member |
|---|---|---|---|---|---|---|
| pages/Results.py:89-95 | the rows of `progress_df` are built from the progress dict; over an empty dict `pd.DataFrame([])` has no `Status` column, so `progress_df['Status']` raises `KeyError` and the tab shows no summary | a fresh session whose stored profile has `user_skills == []` and `all_missing == []` (blank skills text, recommendations without `missing_skills`) | "0 / 0 skills completed" | not executed; relies on pandas giving an empty DataFrame no columns | `Results.ProgressTracker.PageSummary`, `Results.EmptyProgressHasNoSummary` | `Results.ProgressTracker.Summary` |
