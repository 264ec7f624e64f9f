/** The volunteer dashboard: the user's projects, the impact figures and the profile form. */
module DashboardPage {
  import opened Wrappers
  import opened Lists
  import opened Strings
  import opened Records
  import Storage

  /** `myProjects`: the catalog projects whose identifier is in the user's joined list. */
  function MyProjects(catalog: seq<Project>, joined: seq<string>): (r: seq<Project>)
    ensures SubsequenceOf(r, catalog)
    ensures forall p :: p in r <==> p in catalog && p.id in joined
    ensures forall p :: multiset(r)[p] == if p.id in joined then multiset(catalog)[p] else 0
  {
    Filter(catalog, (p: Project) => p.id in joined)
  }

  /** A joined identifier that names no catalog project changes nothing in `myProjects`. */
  lemma {:induction false} StaleIdIgnored(catalog: seq<Project>, joined: seq<string>, id: string)
    requires forall p :: p in catalog ==> p.id != id
    ensures MyProjects(catalog, joined + [id]) == MyProjects(catalog, joined)
  {
    forall i | 0 <= i < |catalog|
      ensures (catalog[i].id in joined + [id]) == (catalog[i].id in joined)
    {
      assert catalog[i] in catalog;
    }
    FilterSameTest(catalog, (p: Project) => p.id in joined + [id], (p: Project) => p.id in joined);
  }

  /** The "Hours Volunteered" figure: three hours per joined project found in the catalog. */
  function HoursVolunteered(catalog: seq<Project>, joined: seq<string>): (h: nat)
    ensures h == 3 * |MyProjects(catalog, joined)|
    ensures h % 3 == 0 && h <= 3 * |catalog|
    ensures h == 0 <==> forall p :: p in catalog ==> p.id !in joined
  {
    var mine := MyProjects(catalog, joined);
    assert mine != [] ==> mine[0] in mine;
    3 * |mine|
  }

  /** A tag as the profile stores it: non-empty, trimmed, free of commas. */
  predicate IsTag(t: string) {
    t != "" && Trim(t) == t && ',' !in t
  }

  /** `.map(s => s.trim())`. */
  function TrimAll(pieces: seq<string>): (r: seq<string>)
    ensures |r| == |pieces|
    ensures forall i :: 0 <= i < |pieces| ==> r[i] == Trim(pieces[i])
  {
    seq(|pieces|, i requires 0 <= i < |pieces| => Trim(pieces[i]))
  }

  /** `text.split(',').map(s => s.trim()).filter(Boolean)`: the non-empty trimmed pieces
      between commas, in the order they were typed. */
  function ParseTags(text: string): (r: seq<string>)
    ensures forall t :: t in r ==> IsTag(t)
    ensures SubsequenceOf(r, TrimAll(Split(text, ',')))
    ensures forall t :: t in r <==> t in TrimAll(Split(text, ',')) && t != ""
    ensures forall t :: multiset(r)[t] == if t != "" then multiset(TrimAll(Split(text, ',')))[t] else 0
  {
    PiecesAreTags(text);
    Filter(TrimAll(Split(text, ',')), (t: string) => t != "")
  }

  /** Every non-empty trimmed piece of a comma split is a tag. */
  lemma {:induction false} PiecesAreTags(text: string)
    ensures forall t :: t in TrimAll(Split(text, ',')) && t != "" ==> IsTag(t)
  {
    var pieces := Split(text, ',');
    var trimmed := TrimAll(pieces);
    forall t | t in trimmed && t != ""
      ensures IsTag(t)
    {
      var i :| 0 <= i < |trimmed| && trimmed[i] == t;
      TrimIdempotent(pieces[i]);
      TrimAddsNothing(pieces[i], ',');
    }
  }

  /** An empty box holds no tags. */
  lemma ParseEmpty()
    ensures ParseTags("") == []
  {
    assert Split("", ',') == [""];
    assert TrimAll([""]) == [""];
    assert ParseTags("") == Filter([""], (t: string) => t != "");
  }

  /** `pre` put in front of every string. */
  function PrefixEach(xs: seq<string>, pre: string): (r: seq<string>)
    ensures |r| == |xs|
    ensures forall i :: 0 <= i < |xs| ==> r[i] == pre + xs[i]
  {
    if xs == [] then [] else [pre + xs[0]] + PrefixEach(xs[1..], pre)
  }

  /** Joining with ", " is joining with "," after a space is put before every piece but the first. */
  lemma {:induction false} JoinCommaSpace(xs: seq<string>)
    requires |xs| >= 1
    ensures Join(xs, ", ") == Join([xs[0]] + PrefixEach(xs[1..], " "), ",")
  {
    if |xs| >= 2 {
      var rest := PrefixEach(xs[2..], " ");
      JoinCommaSpace(xs[1..]);
      assert xs[1..][1..] == xs[2..];
      assert PrefixEach(xs[1..], " ") == [" " + xs[1]] + rest;
      var tail := [" " + xs[1]] + rest;
      if rest == [] {
        assert Join(tail, ",") == " " + xs[1];
      } else {
        assert tail[1..] == rest;
        assert ([xs[1]] + rest)[1..] == rest;
        assert Join(tail, ",") == " " + Join([xs[1]] + rest, ",");
      }
      assert ([xs[0]] + tail)[1..] == tail;
    }
  }

  /** The stored tags with a space before all but the first: the pieces of the shown text. */
  function Spaced(tags: seq<string>): (r: seq<string>)
    requires |tags| >= 1
    ensures |r| == |tags| && r[0] == tags[0]
    ensures forall i :: 1 <= i < |tags| ==> r[i] == " " + tags[i]
  {
    [tags[0]] + PrefixEach(tags[1..], " ")
  }

  /** Splitting the shown text at commas gives the spaced tags. */
  lemma {:induction false} SplitShownText(tags: seq<string>)
    requires |tags| >= 1
    requires forall i :: 0 <= i < |tags| ==> ',' !in tags[i]
    ensures Split(Join(tags, ", "), ',') == Spaced(tags)
  {
    var spaced := Spaced(tags);
    JoinCommaSpace(tags);
    forall i | 1 <= i < |spaced|
      ensures ',' !in spaced[i]
    {
      assert spaced[i] == [' '] + tags[i];
    }
    SplitJoin(spaced, ',');
  }

  /** Trimming the spaced tags gives back the tags. */
  lemma {:induction false} TrimSpaced(tags: seq<string>)
    requires |tags| >= 1
    requires forall i :: 0 <= i < |tags| ==> Trim(tags[i]) == tags[i]
    ensures TrimAll(Spaced(tags)) == tags
  {
    var trimmed := TrimAll(Spaced(tags));
    forall i | 1 <= i < |tags|
      ensures trimmed[i] == tags[i]
    {
      TrimSpacedTag(tags[i]);
    }
  }

  /** A trimmed tag with a space in front trims back to itself. */
  lemma TrimSpacedTag(t: string)
    requires Trim(t) == t
    ensures Trim(" " + t) == t
  {
    TrimSpacePrefix(' ', t);
  }

  /** The stored tags, shown joined with ", ", parse back to the same tags. */
  lemma {:induction false} ParseShownTags(tags: seq<string>)
    requires forall t :: t in tags ==> IsTag(t)
    ensures ParseTags(Join(tags, ", ")) == tags
  {
    if tags == [] {
      ParseEmpty();
    } else {
      assert forall i :: 0 <= i < |tags| ==> IsTag(tags[i]) by {
        forall i | 0 <= i < |tags|
          ensures IsTag(tags[i])
        {
          assert tags[i] in tags;
        }
      }
      SplitShownText(tags);
      TrimSpaced(tags);
    }
  }

  /** What the skills (or interests) box shows: what was typed, or else the stored tags. */
  function ShownText(typed: string, stored: seq<string>): (r: string)
    ensures typed != "" ==> r == typed
    ensures typed == "" && (forall t :: t in stored ==> IsTag(t)) ==> ParseTags(r) == stored
  {
    if typed != "" then typed
    else if forall t :: t in stored ==> IsTag(t) then
      ParseShownTags(stored);
      Join(stored, ", ")
    else Join(stored, ", ")
  }

  /** `handleUpdateProfile` as written: it parses the typed text, which stays "" until the box
      is edited, rather than the text the box shows. */
  function ProfileUpdateAsWritten(name: string, bio: string, typedSkills: string, typedInterests: string): (patch: UserPatch)
    ensures patch.id.None? && patch.email.None? && patch.role.None? && patch.joinedProjects.None?
    ensures patch.name == Some(name) && patch.bio == Some(bio)
    ensures patch.skills == Some(ParseTags(typedSkills))
    ensures patch.interests == Some(ParseTags(typedInterests))
  {
    UserPatch(None, None, Some(name), None, Some(ParseTags(typedSkills)), Some(ParseTags(typedInterests)),
              Some(bio), None)
  }

  /** Saving the profile without touching the skills and interests boxes erases both lists,
      whatever the user had stored: a user with skills ["Teaching"] ends with none. */
  lemma UntouchedTagsErasedAsWritten(u: User)
    ensures var saved := MergeUser(u, ProfileUpdateAsWritten(u.name, u.bio, "", ""));
            saved.skills == [] && saved.interests == []
  {
    ParseEmpty();
  }

  /** The profile save: name and bio from the form, skills and interests parsed from what the
      boxes show; nothing else is sent. */
  function ProfileUpdate(user: User, name: string, bio: string, typedSkills: string, typedInterests: string): (patch: UserPatch)
    ensures patch.id.None? && patch.email.None? && patch.role.None? && patch.joinedProjects.None?
    ensures patch.name == Some(name) && patch.bio == Some(bio)
    ensures typedSkills != "" ==> patch.skills == Some(ParseTags(typedSkills))
    ensures typedInterests != "" ==> patch.interests == Some(ParseTags(typedInterests))
    ensures typedSkills == "" ==> patch.skills == Some(ParseTags(Join(user.skills, ", ")))
    ensures typedInterests == "" ==> patch.interests == Some(ParseTags(Join(user.interests, ", ")))
    ensures patch.skills.Some? && forall t :: t in patch.skills.value ==> IsTag(t)
    ensures patch.interests.Some? && forall t :: t in patch.interests.value ==> IsTag(t)
    ensures Storage.KeepsAccountKeys(patch)
  {
    UserPatch(None, None, Some(name), None, Some(ParseTags(ShownText(typedSkills, user.skills))),
              Some(ParseTags(ShownText(typedInterests, user.interests))), Some(bio), None)
  }

  /** Saving the profile keeps the account's identifier, email, role and joined projects. */
  lemma ProfileSaveKeepsAccount(u: User, name: string, bio: string, typedSkills: string, typedInterests: string)
    ensures var saved := MergeUser(u, ProfileUpdate(u, name, bio, typedSkills, typedInterests));
            && saved.id == u.id && saved.email == u.email && saved.role == u.role
            && saved.joinedProjects == u.joinedProjects
            && saved.name == name && saved.bio == bio
  {
  }

  /** Saving the profile without touching the tag boxes keeps the stored tags. */
  lemma {:induction false} UntouchedTagsKept(u: User, name: string, bio: string)
    requires forall t :: t in u.skills ==> IsTag(t)
    requires forall t :: t in u.interests ==> IsTag(t)
    ensures var saved := MergeUser(u, ProfileUpdate(u, name, bio, "", ""));
            saved.skills == u.skills && saved.interests == u.interests
  {
    ParseShownTags(u.skills);
    ParseShownTags(u.interests);
  }
}
