/**
 * `_map_additional_info`: the `additionalInformations` dict, built with the
 * `safe_get` rule that turns a blank value into `None`, and the
 * `normalize_awards` clean-up of award texts longer than 80 characters.
 */
module AdditionalInfo {
  import opened Results
  import opened PyStr
  import opened PyJson

  /** `value is None or value == "" or (isinstance(value, list) and len(value) == 0)` */
  predicate IsBlank(v: Json)
  {
    v == JNull || v == JStr("") || v == JList([])
  }

  /** `safe_get(key, default)`: the value under `key` (the default when the key is
      absent), with a blank value answered as `None`. */
  function SafeGet(info: Fields, key: string, default: Json): (r: Json)
    ensures r == JNull <==> IsBlank(GetOr(info, key, default))
    ensures r != JNull ==> r == GetOr(info, key, default)
    ensures r != JStr("") && r != JList([])
  {
    var v := GetOr(info, key, default);
    if IsBlank(v) then JNull else v
  }

  /** Award texts up to this length are kept as they are. */
  const AwardLimit := 80

  const AwardWord := "award"

  /** The shortened form of one award text longer than the limit. When the
      lower-cased text mentions "award", the text is split once on the first
      lower-case "award": the stripped part before it becomes the main name with
      " Award" appended, and the stripped rest follows in parentheses unless it is
      empty or already opens with "(". A text that writes the word only with
      capitals has nothing to split on and is kept whole. Any other text is cut
      to its first 80 characters followed by "...". */
  function ShortenAward(s: string): string
    requires |s| > AwardLimit
  {
    if Contains(Lower(s), AwardWord) then
      var parts := SplitOnce(s, AwardWord);
      if parts.None? then s
      else Strip(parts.value.0) + " Award" + Description(Strip(parts.value.1))
    else s[..AwardLimit] + "..."
  }

  /** How the stripped remainder after "award" is appended to the main name. */
  function Description(desc: string): string
  {
    if desc != "" && !StartsWith(desc, "(") then " (" + desc + ")" else " " + desc
  }

  /** The two forms `Description` takes, by the source's test. */
  lemma DescriptionCases(desc: string)
    ensures desc != "" && !StartsWith(desc, "(") ==> Description(desc) == " (" + desc + ")"
    ensures desc == "" || StartsWith(desc, "(") ==> Description(desc) == " " + desc
  {
  }

  /** One element of the awards list: only a string longer than the limit changes. */
  function NormalizeAward(a: Json): Json
  {
    if a.JStr? && |a.s| > AwardLimit then JStr(ShortenAward(a.s)) else a
  }

  /** `normalize_awards(awards)`: a falsy value or one that is not a list comes back
      as it is; a list is rebuilt element by element, in order. */
  function NormalizedAwards(awards: Json): (r: Json)
    ensures !Truthy(awards) || !awards.JList? ==> r == awards
    ensures awards.JList? ==> r.JList? && |r.items| == |awards.items|
  {
    if !Truthy(awards) || !awards.JList? then awards
    else JList(seq(|awards.items|, i requires 0 <= i < |awards.items| => NormalizeAward(awards.items[i])))
  }

  /** The body of the `normalize_awards` loop: the element it appends for one award. */
  method NormalizeOne(award: Json) returns (next: Json)
    ensures next == NormalizeAward(award)
  {
    next := award;
    if award.JStr? && |award.s| > AwardLimit {
      var s := award.s;
      if Contains(Lower(s), AwardWord) {
        var parts := SplitOnce(s, AwardWord);
        if parts.Some? {
          var mainPart := Strip(parts.value.0) + " Award";
          var descPart := Strip(parts.value.1);
          DescriptionCases(descPart);
          if descPart != "" && !StartsWith(descPart, "(") {
            var wrapped := " (" + descPart + ")";
            next := JStr(mainPart + wrapped);
          } else {
            var spaced := " " + descPart;
            next := JStr(mainPart + spaced);
          }
        }
      } else {
        next := JStr(s[..AwardLimit] + "...");
      }
    }
  }

  /** `normalize_awards` as the source runs it: one pass that appends each
      element, shortened or not, to `normalized`. */
  method NormalizeAwards(awards: Json) returns (r: Json)
    ensures r == NormalizedAwards(awards)
  {
    if !Truthy(awards) || !awards.JList? {
      return awards;
    }
    var xs := awards.items;
    var normalized: seq<Json> := [];
    var i := 0;
    while i < |xs|
      invariant 0 <= i <= |xs|
      invariant |normalized| == i
      invariant forall k :: 0 <= k < i ==> normalized[k] == NormalizeAward(xs[k])
    {
      var next := NormalizeOne(xs[i]);
      normalized := normalized + [next];
      i := i + 1;
    }
    r := JList(normalized);
  }

  /** Elements that are not strings, and strings of at most 80 characters, are kept. */
  lemma ShortOrForeignAwardKept(a: Json)
    requires !a.JStr? || |a.s| <= AwardLimit
    ensures NormalizeAward(a) == a
  {
  }

  /** A long text that never mentions an award, in any case, becomes its first
      80 characters and "...": 83 characters, shorter than the text once it is
      longer than 83. */
  lemma LongAwardTruncated(s: string)
    requires |s| > AwardLimit && !Contains(Lower(s), AwardWord)
    ensures var r := NormalizeAward(JStr(s));
            r.JStr? && |r.s| == AwardLimit + 3
            && r.s[..AwardLimit] == s[..AwardLimit] && EndsWith(r.s, "...")
  {
    var r := s[..AwardLimit] + "...";
    assert r[..AwardLimit] == s[..AwardLimit];
    assert r[|r| - 3..] == "...";
  }

  /** A truncated text is left alone by a second pass: its first 80 characters
      hold no "award" and the trailing dots cannot complete one. */
  lemma TruncationStable(s: string)
    requires |s| > AwardLimit && !Contains(Lower(s), AwardWord)
    ensures var t := ShortenAward(s); ShortenAward(t) == t
  {
    var t := s[..AwardLimit] + "...";
    assert Lower(t) == Lower(s)[..AwardLimit] + "..." by {
      LowerSlice(s, 0, AwardLimit);
      assert Lower("...") == "...";
    }
    if Contains(Lower(s)[..AwardLimit], AwardWord) {
      ContainsPrefix(Lower(s), AwardLimit, AwardWord);
    }
    DotsCompleteNoAward(Lower(s)[..AwardLimit]);
    assert t[..AwardLimit] == s[..AwardLimit];
  }

  /** Three dots after a text without "award" cannot complete one. */
  lemma DotsCompleteNoAward(u: string)
    requires !Contains(u, AwardWord)
    ensures !Contains(u + "...", AwardWord)
  {
    var t := u + "...";
    forall i | 0 <= i
      ensures !OccursAt(t, AwardWord, i)
    {
      if i + 5 > |t| {
      } else if i + 5 <= |u| {
        assert t[i..i + 5] == u[i..i + 5];
        if u[i..i + 5] == AwardWord {
          ContainsAt(u, AwardWord, i);
        }
      } else {
        assert t[i + 4] == '.';
        assert t[i..i + 5][4] == t[i + 4];
      }
    }
  }

  /** A long text holding a lower-case "award", written as `pre + "award" + post`
      with no earlier "award" in it, is split at that first "award". */
  lemma SplitAtFirstAward(pre: string, post: string)
    requires |pre + AwardWord + post| > AwardLimit
    requires forall i :: 0 <= i < |pre| ==> !OccursAt(pre + AwardWord + post, AwardWord, i)
    ensures ShortenAward(pre + AwardWord + post) == Strip(pre) + " Award" + Description(Strip(post))
  {
    var s := pre + AwardWord + post;
    assert OccursAt(s, AwardWord, |pre|) by {
      assert s[|pre|..|pre| + 5] == AwardWord;
    }
    LowerKeepsOccurrence(s, AwardWord, |pre|);
    SplitOnceAt(pre, AwardWord, post);
  }

  /** Such a text becomes the stripped `pre` with " Award", then the stripped
      `post`: in parentheses when it is not empty and does not already open with
      "(", after a single space otherwise. */
  lemma LongAwardSplit(pre: string, post: string)
    requires |pre + AwardWord + post| > AwardLimit
    requires forall i :: 0 <= i < |pre| ==> !OccursAt(pre + AwardWord + post, AwardWord, i)
    ensures var r := ShortenAward(pre + AwardWord + post);
            var main := Strip(pre) + " Award";
            var desc := Strip(post);
            StartsWith(r, main)
            && (desc != "" && !StartsWith(desc, "(") ==> r == main + (" (" + desc + ")"))
            && (desc == "" || StartsWith(desc, "(") ==> r == main + (" " + desc))
  {
    SplitAtFirstAward(pre, post);
    DescriptionCases(Strip(post));
    var main := Strip(pre) + " Award";
    var r := main + Description(Strip(post));
    assert r[..|main|] == main;
  }

  /** A long text that spells the word only with a capital, such as "Award", is
      found by the lower-cased test but not by the case-sensitive split, so it is
      kept whole, however long it is. */
  lemma CapitalAwardKept(s: string)
    requires |s| > AwardLimit && Contains(Lower(s), AwardWord) && !Contains(s, AwardWord)
    ensures NormalizeAward(JStr(s)) == JStr(s)
  {
  }

  /** The `additionalInformations` dict. */
  datatype AdditionalInformations = AdditionalInformations(
    profile_summary: Json,
    skills: Json,
    awards: Json,
    publications: Json,
    conferences: Json,
    collaborators: Json,
    languages: Json,
    certifications: Json,
    volunteer_work: Json)

  /** No field is an empty string or an empty list: each is `None` or a value
      that is not blank. */
  predicate NoBlanks(a: AdditionalInformations)
  {
    && NullOrFilled(a.profile_summary) && NullOrFilled(a.skills) && NullOrFilled(a.awards)
    && NullOrFilled(a.publications) && NullOrFilled(a.conferences) && NullOrFilled(a.collaborators)
    && NullOrFilled(a.languages) && NullOrFilled(a.certifications) && NullOrFilled(a.volunteer_work)
  }

  /** `_map_additional_info(info)`: a value that is not a dict has no `.get` and
      fails; a dict gives a section without blank fields, the awards included,
      since normalising keeps a list's length. */
  function AdditionalInfoOf(info: Json): (r: Result<AdditionalInformations, MapError>)
    ensures r.Ok? <==> info.JObj?
    ensures r.Ok? ==> NoBlanks(r.value)
  {
    match AsDict(info)
    case None => Err(MappingFailed)
    case Some(fs) =>
      var summary := GetOr(fs, "profile_summary", JNull);
      NormalizedAwardsFilled(SafeGet(fs, "awards", JNull));
      Ok(AdditionalInformations(
        profile_summary := if Truthy(summary) then summary else JNull,
        skills := SafeGet(fs, "skills", JList([])),
        awards := NormalizedAwards(SafeGet(fs, "awards", JNull)),
        publications := SafeGet(fs, "publications", JNull),
        conferences := SafeGet(fs, "conferences", JNull),
        collaborators := SafeGet(fs, "collaborators", JNull),
        languages := SafeGet(fs, "languages", JNull),
        certifications := SafeGet(fs, "certifications", JNull),
        volunteer_work := SafeGet(fs, "volunteer_work", JNull)))
  }

  /** `_map_additional_info` with `normalize_awards` run as its loop. */
  method MapAdditionalInfo(info: Json) returns (r: Result<AdditionalInformations, MapError>)
    ensures r == AdditionalInfoOf(info)
  {
    if !info.JObj? {
      return Err(MappingFailed);
    }
    var fs := info.fields;
    var summary := GetOr(fs, "profile_summary", JNull);
    var awards := NormalizeAwards(SafeGet(fs, "awards", JNull));
    r := Ok(AdditionalInformations(
      profile_summary := if Truthy(summary) then summary else JNull,
      skills := SafeGet(fs, "skills", JList([])),
      awards := awards,
      publications := SafeGet(fs, "publications", JNull),
      conferences := SafeGet(fs, "conferences", JNull),
      collaborators := SafeGet(fs, "collaborators", JNull),
      languages := SafeGet(fs, "languages", JNull),
      certifications := SafeGet(fs, "certifications", JNull),
      volunteer_work := SafeGet(fs, "volunteer_work", JNull)));
  }

  /** `None`, or a value that is not blank. */
  predicate NullOrFilled(v: Json)
  {
    v == JNull || !IsBlank(v)
  }

  /** Normalising a value that is not blank leaves it not blank. */
  lemma NormalizedAwardsFilled(awards: Json)
    requires NullOrFilled(awards)
    ensures NullOrFilled(NormalizedAwards(awards))
  {
  }

  /** A missing `skills` is `None` in the dict, not its `[]` default. */
  lemma MissingSkillsNull(info: Json)
    requires info.JObj? && !HasField(info.fields, "skills")
    ensures AdditionalInfoOf(info).value.skills == JNull
  {
  }
}
