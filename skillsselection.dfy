/** The onboarding skills step: the per-skill flag map and its toggle, the
    list of chosen skills, the restore from the session cache, the skill rows
    written for a user, and the order of the steps taken on finish. */
module SkillsSelection {
  import opened Types

  /** `selected`: a flag per skill; a skill without an entry reads as unset. */
  type Flags = map<string, bool>

  /** `selected[k]`, where a missing entry is falsy. */
  function Flag(m: Flags, k: string): bool
  {
    k in m && m[k]
  }

  /** `{...prev, [skill]: !prev[skill]}` */
  function ToggleFlags(m: Flags, skill: string): (r: Flags)
    ensures r.Keys == m.Keys + {skill}
    ensures Flag(r, skill) == !Flag(m, skill)
    ensures forall k :: k != skill && k in m ==> r[k] == m[k]
  {
    m[skill := !Flag(m, skill)]
  }

  /** Toggling changes the reading of no other skill. */
  lemma ToggleOnlyFlips(m: Flags, skill: string, k: string)
    requires k != skill
    ensures Flag(ToggleFlags(m, skill), k) == Flag(m, k)
  {
  }

  /** Toggling twice gives back the reading every skill had before. */
  lemma ToggleTwice(m: Flags, skill: string)
    ensures forall k :: Flag(ToggleFlags(ToggleFlags(m, skill), skill), k) == Flag(m, k)
    ensures skill in m ==> ToggleFlags(ToggleFlags(m, skill), skill) == m
  {
    var r := ToggleFlags(ToggleFlags(m, skill), skill);
    if skill in m {
      assert r.Keys == m.Keys;
      assert forall k :: k in m ==> r[k] == m[k];
    }
  }

  /** The skills whose flag is set. */
  function ChosenSet(m: Flags): set<string>
  {
    set k | k in m && m[k]
  }

  /** `keys` is what `Object.keys(m)` returns: every key once. */
  ghost predicate Enumerates(keys: seq<string>, m: Flags)
  {
    && (forall k :: k in m <==> k in keys)
    && (forall i, j :: 0 <= i < j < |keys| ==> keys[i] != keys[j])
  }

  /** `keys.filter(k => m[k])` */
  function Chosen(keys: seq<string>, m: Flags): (r: seq<string>)
    ensures |r| <= |keys|
    ensures forall k :: k in r <==> k in keys && Flag(m, k)
  {
    if keys == [] then []
    else
      var last := keys[|keys| - 1];
      Chosen(keys[..|keys| - 1], m) + (if Flag(m, last) then [last] else [])
  }

  /** The filter keeps the order of the keys and repeats none of them. */
  lemma {:induction false} ChosenDistinct(keys: seq<string>, m: Flags)
    requires forall i, j :: 0 <= i < j < |keys| ==> keys[i] != keys[j]
    ensures forall i, j :: 0 <= i < j < |Chosen(keys, m)| ==> Chosen(keys, m)[i] != Chosen(keys, m)[j]
  {
    if keys != [] {
      var init := keys[..|keys| - 1];
      var last := keys[|keys| - 1];
      ChosenDistinct(init, m);
      assert last !in init;
      assert last !in Chosen(init, m);
    }
  }

  /** `chosen` is exactly the set of skills whose flag is set. */
  lemma ChosenIsChosenSet(keys: seq<string>, m: Flags)
    requires Enumerates(keys, m)
    ensures forall k :: k in Chosen(keys, m) <==> k in ChosenSet(m)
  {
  }

  /** `arr.reduce((acc, s) => ({...acc, [s]: true}), {})` */
  function Restore(arr: seq<string>): (r: Flags)
    ensures forall k :: k in r <==> k in arr
    ensures forall k :: k in r ==> r[k]
  {
    if arr == [] then map[]
    else Restore(arr[..|arr| - 1])[arr[|arr| - 1] := true]
  }

  /** The restored map is the listed skills, each set. */
  lemma RestoreIsListed(arr: seq<string>)
    ensures Restore(arr) == map k | k in arr :: true
    ensures ChosenSet(Restore(arr)) == set k | k in arr
  {
  }

  /** Writing `chosen` to the cache and restoring it gives every skill the reading it had. */
  lemma RestoreChosen(keys: seq<string>, m: Flags)
    requires Enumerates(keys, m)
    ensures forall k :: Flag(Restore(Chosen(keys, m)), k) == Flag(m, k)
    ensures Restore(Chosen(keys, m)) == map k | k in ChosenSet(m) :: true
  {
    RestoreIsListed(Chosen(keys, m));
  }

  /** A `user_skills` row. */
  datatype SkillRow = SkillRow(userId: string, skill: string)

  /** `chosen.map(skill => ({ user_id, skill }))` */
  function SkillRows(userId: string, chosen: seq<string>): (r: seq<SkillRow>)
    ensures |r| == |chosen|
    ensures forall i :: 0 <= i < |r| ==> r[i].userId == userId && r[i].skill == chosen[i]
  {
    if chosen == [] then []
    else SkillRows(userId, chosen[..|chosen| - 1]) + [SkillRow(userId, chosen[|chosen| - 1])]
  }

  /** `sessionStorage.getItem("onboarding_role") || null`: an absent or empty value gives no role. */
  function RoleColumn(stored: Option<string>): (r: Option<string>)
    ensures r.Some? <==> stored.Some? && stored.value != ""
    ensures r.Some? ==> r == stored
  {
    if stored.Some? && stored.value != "" then stored else None
  }

  /** `sessionStorage.getItem("onboarding_profile") || "{}"`: the profile text handed to `JSON.parse`. */
  function ProfileText(stored: Option<string>): (r: string)
    ensures r != ""
    ensures stored.Some? && stored.value != "" ==> r == stored.value
  {
    if stored.Some? && stored.value != "" then stored.value else "{}"
  }

  const DefaultSkills: seq<string> := ["SMAW", "GMAW", "TIG", "Flux-Cored", "Inspection", "Rigging"]
  const CompletedStatus: string := "completed"
  const LoginPath: string := "/login"
  const CompletePath: string := "/onboarding/complete"

  /** A `users` row as upserted on finish. */
  datatype UserRow = UserRow(id: string, onboardingStatus: string, role: Option<string>, profile: string)

  /** A write to the database. */
  datatype Write = UpsertUser(row: UserRow) | UpsertSkills(rows: seq<SkillRow>)

  /** How the remote calls of `finish` end. `authUser` is the signed-in
      user's id, or None when `getUser` fails or has no user. */
  datatype Remote = Remote(authUser: Option<string>, upsertFails: bool)

  class SkillsPage {
    var skills: seq<string>
    var selected: Flags
    var saving: bool
    /** The "onboarding_skills" session entry. */
    var cache: Option<seq<string>>
    /** Every database write, in order. */
    var writes: seq<Write>
    /** The last navigation target. */
    var navigatedTo: Option<string>

    /** Mounting the page: the cached list, when there is one, is restored
        into the flags; then the fixed skill list is shown. */
    constructor (cached: Option<seq<string>>)
      ensures selected == (if cached.Some? then Restore(cached.value) else map[])
      ensures skills == DefaultSkills && !saving
      ensures cache == cached && writes == [] && navigatedTo == None
    {
      if cached.Some? {
        selected := Restore(cached.value);
      } else {
        selected := map[];
      }
      skills := DefaultSkills;
      saving := false;
      cache := cached;
      writes := [];
      navigatedTo := None;
    }

    method Toggle(skill: string)
      modifies this
      ensures selected == ToggleFlags(old(selected), skill)
      ensures skills == old(skills) && saving == old(saving) && cache == old(cache)
      ensures writes == old(writes) && navigatedTo == old(navigatedTo)
    {
      selected := ToggleFlags(selected, skill);
    }

    /** `finish`. The chosen list is cached first, whatever happens next.
        Without a signed-in user nothing is written and the page goes to the
        login. Otherwise the user row is upserted; when that fails the skill
        rows are not written and the page stays. Otherwise the skill rows go
        out (a failure there is only logged) and the page moves on. `keys`
        is the enumeration order of `selected`; `storedRole` and
        `storedProfile` are the other two session entries, and
        `profileParses` says whether `JSON.parse` accepts the profile text:
        when it does not, `finish` throws after the cache write and the
        login check, with nothing written and saving left on. */
    method Finish(keys: seq<string>, remote: Remote, storedRole: Option<string>, storedProfile: Option<string>,
                  profileParses: bool)
      returns (chosen: seq<string>)
      requires Enumerates(keys, selected)
      modifies this
      ensures chosen == Chosen(keys, selected)
      ensures cache == Some(chosen)
      ensures saving <==> remote.authUser.Some? && !profileParses
      ensures selected == old(selected) && skills == old(skills)
      ensures remote.authUser.None? ==>
        writes == old(writes) && navigatedTo == Some(LoginPath)
      ensures remote.authUser.Some? && !profileParses ==>
        writes == old(writes) && navigatedTo == old(navigatedTo)
      ensures remote.authUser.Some? && profileParses ==>
        |writes| > |old(writes)| && writes[..|old(writes)| + 1] ==
          old(writes) + [UpsertUser(UserRow(remote.authUser.value, CompletedStatus,
                                            RoleColumn(storedRole), ProfileText(storedProfile)))]
      ensures remote.authUser.Some? && profileParses && remote.upsertFails ==>
        |writes| == |old(writes)| + 1 && navigatedTo == old(navigatedTo)
      ensures remote.authUser.Some? && profileParses && !remote.upsertFails ==>
        writes == old(writes) + [UpsertUser(UserRow(remote.authUser.value, CompletedStatus,
                                                    RoleColumn(storedRole), ProfileText(storedProfile))),
                                 UpsertSkills(SkillRows(remote.authUser.value, chosen))]
        && navigatedTo == Some(CompletePath)
    {
      saving := true;
      chosen := Chosen(keys, selected);
      cache := Some(chosen);
      if remote.authUser.None? {
        saving := false;
        navigatedTo := Some(LoginPath);
        return;
      }
      if !profileParses {
        return;
      }
      var userId := remote.authUser.value;
      var row := UserRow(userId, CompletedStatus, RoleColumn(storedRole), ProfileText(storedProfile));
      writes := writes + [UpsertUser(row)];
      if remote.upsertFails {
        saving := false;
        return;
      }
      writes := writes + [UpsertSkills(SkillRows(userId, chosen))];
      saving := false;
      navigatedTo := Some(CompletePath);
    }
  }

  /** Whatever reached the cache on finish restores to the same selection
      when the page is mounted again. */
  method ScenarioRevisit(remote: Remote)
  {
    var page := new SkillsPage(None);
    page.Toggle("TIG");
    page.Toggle("SMAW");
    page.Toggle("TIG");
    assert page.selected == map["TIG" := false, "SMAW" := true];
    var keys := ["TIG", "SMAW"];
    var chosen := page.Finish(keys, remote, None, None, true);
    assert chosen == ["SMAW"];
    var again := new SkillsPage(page.cache);
    RestoreChosen(keys, page.selected);
    assert forall k :: Flag(again.selected, k) == Flag(page.selected, k);
  }
}
