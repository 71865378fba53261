/** Workspace and "360 queue" classification of a conversation from its tag
    names. Two variants exist: the sync script searches keywords inside the
    lower-cased tags joined by spaces; the backfill script compares each
    lower-cased tag as a whole against fixed tag names. */
module Tags {
  import opened Text

  /** Keyword lists of the substring variant, in declaration order. */
  const SkyPrivateKeywords: seq<string> := ["skyprivate", "sky private", "sky-private"]
  const CamModelDirectoryKeywords: seq<string> :=
    ["cmd", "cammodeldirectory", "cam model directory", "cam-model-directory"]
  const Billing360Keywords: seq<string> := ["payment", "billing", "top-up", "topup", "top up", "verification"]
  const Ceq360Keywords: seq<string> := ["report", "scammer", "ceq", "publicprofile", "public profile"]

  /** Every tag lower-cased, in order. */
  function LowerAll(tags: seq<string>): (r: seq<string>)
    ensures |r| == |tags| && forall i :: 0 <= i < |tags| ==> r[i] == Lower(tags[i])
  {
    if tags == [] then [] else [Lower(tags[0])] + LowerAll(tags[1..])
  }

  /** `' '.join(t.lower() for t in tags)`. */
  function JoinedLower(tags: seq<string>): string {
    Join(" ", LowerAll(tags))
  }

  lemma JoinedLowerOne(a: string)
    ensures JoinedLower([a]) == Lower(a)
  {
    assert LowerAll([a]) == [Lower(a)];
  }

  lemma JoinedLowerTwo(a: string, b: string)
    ensures JoinedLower([a, b]) == Lower(a) + " " + Lower(b)
  {
    assert LowerAll([a, b]) == [Lower(a), Lower(b)];
    assert LowerAll([a, b])[1..] == [Lower(b)];
  }

  /** One entry of a conversation's `tags.tags` list, by its `name` (`None`
      when the key is missing or null). */
  datatype TagRef = TagRef(name: Option<string>)

  /** `[t.get("name", "") for t in tags if t.get("name")]`: the names that
      are present and non-empty, in their order. */
  function NamedTags(refs: seq<TagRef>): (names: seq<string>)
    ensures |names| <= |refs|
    ensures forall i :: 0 <= i < |names| ==> names[i] != ""
    ensures forall i :: 0 <= i < |refs| && refs[i].name.Some? && refs[i].name.value != "" ==>
      refs[i].name.value in names
    ensures forall n :: n in names ==> TagRef(Some(n)) in refs
  {
    if refs == [] then []
    else
      var rest := NamedTags(refs[1..]);
      assert forall n :: TagRef(Some(n)) in refs[1..] ==> TagRef(Some(n)) in refs;
      if refs[0].name.Some? && refs[0].name.value != "" then [refs[0].name.value] + rest else rest
  }

  /** Named entries keep their order: the names of `a + b` are those of `a`
      followed by those of `b`. */
  lemma {:induction false} NamedTagsAppend(a: seq<TagRef>, b: seq<TagRef>)
    ensures NamedTags(a + b) == NamedTags(a) + NamedTags(b)
  {
    if a == [] {
      assert a + b == b;
    } else {
      assert (a + b)[0] == a[0];
      assert (a + b)[1..] == a[1..] + b;
      NamedTagsAppend(a[1..], b);
      var x := a[0].name;
      if x.Some? && x.value != "" {
        assert [x.value] + (NamedTags(a[1..]) + NamedTags(b)) == ([x.value] + NamedTags(a[1..])) + NamedTags(b);
      }
    }
  }

  /** `any(kw in hay for kw in keywords)`. */
  predicate AnyKeywordIn(keywords: seq<string>, hay: string) {
    exists i :: 0 <= i < |keywords| && Contains(hay, keywords[i])
  }

  /** `determine_workspace` of the sync script: `Unknown` for no tags,
      otherwise the first workspace (SkyPrivate before CamModelDirectory)
      one of whose keywords occurs in the joined text. */
  function Workspace(tags: seq<string>): (w: string)
    ensures tags == [] ==> w == "Unknown"
    ensures w == "SkyPrivate" || w == "CamModelDirectory" || w == "Unknown"
    ensures w == "SkyPrivate" <==> tags != [] && AnyKeywordIn(SkyPrivateKeywords, JoinedLower(tags))
    ensures w == "CamModelDirectory" <==>
      tags != [] && !AnyKeywordIn(SkyPrivateKeywords, JoinedLower(tags))
      && AnyKeywordIn(CamModelDirectoryKeywords, JoinedLower(tags))
  {
    if tags == [] then "Unknown"
    else
      var all := JoinedLower(tags);
      if AnyKeywordIn(SkyPrivateKeywords, all) then "SkyPrivate"
      else if AnyKeywordIn(CamModelDirectoryKeywords, all) then "CamModelDirectory"
      else "Unknown"
  }

  /** `determine_360_queue` of the sync script: the flag and the queue kind. */
  function Queue360(tags: seq<string>): (r: (bool, Option<string>))
    ensures r.0 <==> r.1.Some?
    ensures tags == [] ==> r == (false, None)
    ensures r.1 == Some("both") <==>
      tags != [] && AnyKeywordIn(Billing360Keywords, JoinedLower(tags))
      && AnyKeywordIn(Ceq360Keywords, JoinedLower(tags))
    ensures r.1.Some? ==> r.1.value == "both" || r.1.value == "billing" || r.1.value == "ceq"
  {
    if tags == [] then (false, None)
    else
      var all := JoinedLower(tags);
      var isBilling := AnyKeywordIn(Billing360Keywords, all);
      var isCeq := AnyKeywordIn(Ceq360Keywords, all);
      if isBilling && isCeq then (true, Some("both"))
      else if isBilling then (true, Some("billing"))
      else if isCeq then (true, Some("ceq"))
      else (false, None)
  }

  /** Each queue kind of `determine_360_queue` matches exactly one
      combination of the two keyword tests, and a flag without a kind
      means neither matched. */
  lemma Queue360Kinds(tags: seq<string>)
    ensures Queue360(tags).1 == Some("billing") <==>
      tags != [] && AnyKeywordIn(Billing360Keywords, JoinedLower(tags))
      && !AnyKeywordIn(Ceq360Keywords, JoinedLower(tags))
    ensures Queue360(tags).1 == Some("ceq") <==>
      tags != [] && !AnyKeywordIn(Billing360Keywords, JoinedLower(tags))
      && AnyKeywordIn(Ceq360Keywords, JoinedLower(tags))
    ensures Queue360(tags) == (false, None) <==>
      tags == [] || (!AnyKeywordIn(Billing360Keywords, JoinedLower(tags))
      && !AnyKeywordIn(Ceq360Keywords, JoinedLower(tags)))
  {
  }

  /** A keyword found inside one tag is found in the joined text. */
  lemma KeywordInTagIsInJoined(tags: seq<string>, k: nat, kw: string)
    requires k < |tags| && Contains(Lower(tags[k]), kw)
    ensures Contains(JoinedLower(tags), kw)
  {
    var lows := LowerAll(tags);
    JoinContainsElement(" ", lows, k);
    var a, c :| Join(" ", lows) == a + lows[k] + c;
    ContainsInMiddle(a, lows[k], c, kw);
  }

  /** Whenever one tag's lower-case form holds a SkyPrivate keyword, the
      workspace is SkyPrivate, whatever the other tags say. */
  lemma SkyPrivateWins(tags: seq<string>, k: nat, j: nat)
    requires k < |tags| && j < |SkyPrivateKeywords|
    requires Contains(Lower(tags[k]), SkyPrivateKeywords[j])
    ensures Workspace(tags) == "SkyPrivate"
  {
    KeywordInTagIsInJoined(tags, k, SkyPrivateKeywords[j]);
  }

  /** A tag holding a billing keyword and a tag holding a CEQ keyword make
      the kind `both`. */
  lemma BothGroupsGiveBoth(tags: seq<string>, kb: nat, b: nat, kc: nat, c: nat)
    requires kb < |tags| && b < |Billing360Keywords| && Contains(Lower(tags[kb]), Billing360Keywords[b])
    requires kc < |tags| && c < |Ceq360Keywords| && Contains(Lower(tags[kc]), Ceq360Keywords[c])
    ensures Queue360(tags) == (true, Some("both"))
  {
    KeywordInTagIsInJoined(tags, kb, Billing360Keywords[b]);
    KeywordInTagIsInJoined(tags, kc, Ceq360Keywords[c]);
  }

  lemma BillingTopUpLower(t: string)
    requires t == "billing-top-up-issue"
    ensures Lower(t) == t
  {
    LowerOfLower(t);
  }

  lemma BillingTopUpHits(t: string)
    requires t == "billing-top-up-issue"
    ensures AnyKeywordIn(Billing360Keywords, t)
  {
    assert OccursAt(t, "billing", 0);
    ContainsAt(t, "billing", 0);
    assert Contains(t, Billing360Keywords[1]);
  }

  lemma BillingTopUpMisses(t: string)
    requires t == "billing-top-up-issue"
    ensures !AnyKeywordIn(Ceq360Keywords, t)
  {
    NoKeywordByChars(Ceq360Keywords, t, "rcccc");
  }

  /** No keyword occurs in `hay` when each has a character `hay` lacks. */
  lemma NoKeywordByChars(keywords: seq<string>, hay: string, cs: seq<char>)
    requires |cs| == |keywords|
    requires forall i :: 0 <= i < |keywords| ==> cs[i] in keywords[i] && cs[i] !in hay
    ensures !AnyKeywordIn(keywords, hay)
  {
    forall i | 0 <= i < |keywords| ensures !Contains(hay, keywords[i]) {
      NotContainsByChar(hay, keywords[i], cs[i]);
    }
  }

  /** `billing-top-up-issue` is a billing conversation and not a CEQ one. */
  lemma BillingTopUpExample(tags: seq<string>)
    requires tags == ["billing-top-up-issue"]
    ensures Queue360(tags) == (true, Some("billing"))
  {
    var t := tags[0];
    BillingTopUpLower(t);
    BillingTopUpHits(t);
    BillingTopUpMisses(t);
    JoinedLowerOne(t);
  }

  lemma SkyPrivateText(one: string)
    requires one == "sky private"
    ensures AnyKeywordIn(SkyPrivateKeywords, one)
  {
    assert OccursAt(one, "sky private", 0);
    ContainsAt(one, "sky private", 0);
    assert Contains(one, SkyPrivateKeywords[1]);
  }

  lemma PrivateSkyText(two: string)
    requires two == "private sky"
    ensures !AnyKeywordIn(SkyPrivateKeywords, two) && !AnyKeywordIn(CamModelDirectoryKeywords, two)
  {
    NoSkyPrivateInPrivateSky(two);
    NoKeywordByChars(CamModelDirectoryKeywords, two, "cccc");
  }

  lemma NoSkyPrivateInPrivateSky(two: string)
    requires two == "private sky"
    ensures !AnyKeywordIn(SkyPrivateKeywords, two)
  {
    forall i: nat ensures !OccursAt(two, "skyprivate", i) {
      if i == 0 {
        assert two[0] != 's';
      } else if i == 1 {
        assert two[1] != 's';
      }
    }
    NotContainsAtAny(two, "skyprivate");
    forall i: nat ensures !OccursAt(two, "sky private", i) {
      if i == 0 {
        assert two[0] != 's';
      }
    }
    NotContainsAtAny(two, "sky private");
    NotContainsByChar(two, "sky-private", '-');
    var ks := SkyPrivateKeywords;
    assert ks[0] == "skyprivate" && ks[1] == "sky private" && ks[2] == "sky-private";
  }

  lemma LowerWords(sky: string, private: string)
    requires sky == "sky" && private == "private"
    ensures Lower(sky) == sky && Lower(private) == private
  {
    LowerOfLower(sky);
    LowerOfLower(private);
  }

  /** The substring variant depends on tag order: a two-word keyword can be
      formed across two adjacent tags by the joining space. */
  lemma WorkspaceDependsOnOrder(a: seq<string>, b: seq<string>)
    requires a == ["sky", "private"] && b == ["private", "sky"]
    ensures Workspace(a) == "SkyPrivate"
    ensures Workspace(b) == "Unknown"
  {
    LowerWords(a[0], a[1]);
    JoinedLowerTwo(a[0], a[1]);
    JoinedLowerTwo(b[0], b[1]);
    SkyPrivateText(JoinedLower(a));
    PrivateSkyText(JoinedLower(b));
  }

  /* Whole-tag variant (backfill script). */

  const SkyPrivateTags: seq<string> := ["skyprivate", "SkyPrivate"]
  const CamModelDirectoryTags: seq<string> := ["cmd", "CMD", "cammodeldirectory", "CamModelDirectory"]
  const Billing360Tags: seq<string> :=
    ["payments", "billing-verifications", "Billing - top-up-issue", "billing", "top-up", "billing-top-up-issue"]
  const Ceq360Tags: seq<string> := ["reports", "scammers", "ceq-verifications", "publicprofile", "ceq"]

  /** `any(t.lower() in lower_tags for t in identifiers)`. */
  predicate AnyTagListed(identifiers: seq<string>, tags: seq<string>) {
    exists i :: 0 <= i < |identifiers| && Lower(identifiers[i]) in LowerAll(tags)
  }

  /** `determine_workspace` of the backfill script. */
  function WholeTagWorkspace(tags: seq<string>): (w: string)
    ensures tags == [] ==> w == "Unknown"
    ensures w == "SkyPrivate" || w == "CamModelDirectory" || w == "Unknown"
    ensures w == "SkyPrivate" <==> AnyTagListed(SkyPrivateTags, tags)
    ensures w == "CamModelDirectory" <==>
      !AnyTagListed(SkyPrivateTags, tags) && AnyTagListed(CamModelDirectoryTags, tags)
  {
    if AnyTagListed(SkyPrivateTags, tags) then "SkyPrivate"
    else if AnyTagListed(CamModelDirectoryTags, tags) then "CamModelDirectory"
    else "Unknown"
  }

  /** `determine_360_queue` of the backfill script. */
  function WholeTagQueue360(tags: seq<string>): (r: (bool, Option<string>))
    ensures r.0 <==> r.1.Some?
    ensures tags == [] ==> r == (false, None)
    ensures r.1 == Some("both") <==> AnyTagListed(Billing360Tags, tags) && AnyTagListed(Ceq360Tags, tags)
    ensures r.1 == Some("billing") <==> AnyTagListed(Billing360Tags, tags) && !AnyTagListed(Ceq360Tags, tags)
    ensures r.1 == Some("ceq") <==> !AnyTagListed(Billing360Tags, tags) && AnyTagListed(Ceq360Tags, tags)
  {
    var isBilling := AnyTagListed(Billing360Tags, tags);
    var isCeq := AnyTagListed(Ceq360Tags, tags);
    if isBilling && isCeq then (true, Some("both"))
    else if isBilling then (true, Some("billing"))
    else if isCeq then (true, Some("ceq"))
    else (false, None)
  }

  lemma LowerAllMember(tags: seq<string>, s: string)
    ensures s in LowerAll(tags) <==> exists t :: t in tags && Lower(t) == s
  {
    if s in LowerAll(tags) {
      var i :| 0 <= i < |tags| && LowerAll(tags)[i] == s;
      assert tags[i] in tags;
    }
  }

  /** Both whole-tag classifiers look only at the set of tags: reordering or
      repeating tags changes nothing. */
  lemma {:induction false} WholeTagOrderIndependent(a: seq<string>, b: seq<string>)
    requires forall t :: t in a <==> t in b
    ensures WholeTagWorkspace(a) == WholeTagWorkspace(b)
    ensures WholeTagQueue360(a) == WholeTagQueue360(b)
  {
    forall s ensures s in LowerAll(a) <==> s in LowerAll(b) {
      LowerAllMember(a, s);
      LowerAllMember(b, s);
    }
  }

  /** Permutations in particular. */
  lemma WholeTagPermutation(a: seq<string>, b: seq<string>)
    requires multiset(a) == multiset(b)
    ensures WholeTagWorkspace(a) == WholeTagWorkspace(b)
    ensures WholeTagQueue360(a) == WholeTagQueue360(b)
  {
    forall t ensures t in a <==> t in b {
      assert t in a <==> t in multiset(a);
      assert t in b <==> t in multiset(b);
    }
    WholeTagOrderIndependent(a, b);
  }

  /** Every CEQ identifier is shorter than `Billing - top-up-issue`. */
  lemma CeqShorterThanTopUp(ceq: seq<string>, id: string)
    requires ceq == Ceq360Tags && id == Billing360Tags[2]
    ensures |id| == 22 && forall i :: 0 <= i < |ceq| ==> |ceq[i]| < 22
  {
  }

  /** A lower-case tag of thirteen characters starting with 'b' matches
      no identifier of the given shapes. */
  lemma BillingIssueTag(bi: string, billing: seq<string>, ceq: seq<string>)
    requires Lower(bi) == bi && |bi| == 13 && bi[0] == 'b'
    requires forall i :: 0 <= i < |billing| ==> |billing[i]| != 13
    requires |ceq| == 5 && |ceq[3]| > 0 && ceq[3][0] == 'p'
    requires forall i :: 0 <= i < |ceq| && i != 3 ==> |ceq[i]| != 13
    ensures forall i :: 0 <= i < |billing| ==> Lower(billing[i]) !in LowerAll([bi])
    ensures forall i :: 0 <= i < |ceq| ==> Lower(ceq[i]) !in LowerAll([bi])
  {
    assert LowerAll([bi]) == [bi];
    forall i | 0 <= i < |billing| ensures Lower(billing[i]) != bi {
      assert |Lower(billing[i])| == |billing[i]|;
    }
    forall i | 0 <= i < |ceq| ensures Lower(ceq[i]) != bi {
      if i == 3 {
        assert Lower(ceq[i])[0] == LowerChar(ceq[i][0]) == 'p';
      } else {
        assert |Lower(ceq[i])| == |ceq[i]|;
      }
    }
  }

  lemma BillingIssueShape(bi: string)
    requires bi == "billing-issue"
    ensures Lower(bi) == bi && |bi| == 13 && bi[0] == 'b'
  {
    LowerOfLower(bi);
  }

  /** No listed billing identifier, and no CEQ identifier but
      `publicprofile`, has thirteen characters. */
  lemma ListedLengths(billing: seq<string>, ceq: seq<string>)
    requires billing == Billing360Tags && ceq == Ceq360Tags
    ensures forall i :: 0 <= i < |billing| ==> |billing[i]| != 13
    ensures |ceq| == 5 && |ceq[3]| > 0 && ceq[3][0] == 'p'
    ensures forall i :: 0 <= i < |ceq| && i != 3 ==> |ceq[i]| != 13
  {
  }

  /** A whole tag equal to `Billing - top-up-issue` in any letter case is a
      billing tag and no CEQ tag. */
  lemma WholeTagTopUpExample(t: string)
    requires Lower(t) == Lower(Billing360Tags[2])
    ensures WholeTagQueue360([t]) == (true, Some("billing"))
  {
    TopUpListed(t);
    TopUpNotCeq(t);
  }

  lemma TopUpListed(t: string)
    requires Lower(t) == Lower(Billing360Tags[2])
    ensures AnyTagListed(Billing360Tags, [t])
  {
    ListedAt(Billing360Tags, [t], 2, t);
  }

  lemma TopUpNotCeq(t: string)
    requires Lower(t) == Lower(Billing360Tags[2])
    ensures !AnyTagListed(Ceq360Tags, [t])
  {
    var id := Billing360Tags[2];
    CeqShorterThanTopUp(Ceq360Tags, id);
    ShorterIdsNotListed(Ceq360Tags, t, id);
  }

  /** A tag whose lower-case form is that of `id` is listed by no identifier
      shorter than `id`. */
  lemma ShorterIdsNotListed(ids: seq<string>, t: string, id: string)
    requires Lower(t) == Lower(id)
    requires forall i :: 0 <= i < |ids| ==> |ids[i]| < |id|
    ensures !AnyTagListed(ids, [t])
  {
    assert |t| == |Lower(t)| == |Lower(id)| == |id|;
    NotListedByLength(ids, [t]);
  }

  lemma ListedAt(ids: seq<string>, tags: seq<string>, i: nat, t: string)
    requires i < |ids| && t in tags && Lower(t) == Lower(ids[i])
    ensures AnyTagListed(ids, tags)
  {
    LowerAllMember(tags, Lower(t));
  }

  /** No identifier is listed when none has the length of a tag. */
  lemma NotListedByLength(ids: seq<string>, tags: seq<string>)
    requires forall i, j :: 0 <= i < |ids| && 0 <= j < |tags| ==> |ids[i]| != |tags[j]|
    ensures !AnyTagListed(ids, tags)
  {
    forall i | 0 <= i < |ids| ensures Lower(ids[i]) !in LowerAll(tags) {
      LowerAllMember(tags, Lower(ids[i]));
    }
  }

  /** `billing-issue` is no listed tag at all, although it contains the
      billing keyword. */
  lemma WholeTagUnlistedExample(other: string)
    requires other == "billing-issue"
    ensures WholeTagQueue360([other]) == (false, None)
  {
    ListedLengths(Billing360Tags, Ceq360Tags);
    BillingIssueShape(other);
    BillingIssueTag(other, Billing360Tags, Ceq360Tags);
    assert !AnyTagListed(Billing360Tags, [other]);
    assert !AnyTagListed(Ceq360Tags, [other]);
  }
}
