/** The decision logic of the recommendation generator: the per-aspect
    matchers between a manufacturer's profile and a market trend, the
    explanation sentence, the capability-gap analysis, and the rule that keeps
    the good fits, best first, twenty at most. The weighted fit score itself,
    the database reads and the inserts are not part of this model: fit scores
    and the outcome of each insert are inputs. */
module Recommendations {
  import opened Text

  /** A location object; a field absent from the JSON is `None`. */
  datatype Location = Location(city: Option<string>, state: Option<string>, country: Option<string>)

  /** `UserData`; a list the profile leaves out is the empty list. */
  datatype Profile = Profile(
    location: Option<Location>,
    certifications: seq<string>,
    currentProducts: seq<string>,
    processes: seq<string>,
    capacity: string,
    interests: seq<string>)

  /** `SupplierTrend`. */
  datatype Trend = Trend(
    trendId: string,
    productCategory: string,
    geography: Option<Location>,
    demandScore: int,
    marketSize: int,
    avgPrice: int,
    requiredSetup: seq<string>,
    supplierDensity: int)

  // ---------------------------------------------------------------------
  // Filtering, as `Array.prototype.filter` does it

  /** `sub` is `s` with some elements removed, the rest kept in order. */
  predicate IsSubsequence<T(==)>(sub: seq<T>, s: seq<T>)
    decreases |s|
  {
    if sub == [] then true
    else if s == [] then false
    else if sub[0] == s[0] then IsSubsequence(sub[1..], s[1..])
    else IsSubsequence(sub, s[1..])
  }

  /** `s.filter(keep)`: the elements satisfying `keep`, in their original order. */
  function Filter(s: seq<string>, keep: string -> bool): (r: seq<string>)
    ensures |r| <= |s|
    ensures forall x :: x in r <==> x in s && keep(x)
    ensures forall x :: multiset(r)[x] == if keep(x) then multiset(s)[x] else 0
    ensures IsSubsequence(r, s)
    decreases |s|
  {
    if s == [] then []
    else
      assert s == [s[0]] + s[1..];
      if keep(s[0]) then [s[0]] + Filter(s[1..], keep)
      else Filter(s[1..], keep)
  }

  /** `items.some(item => <item and target contain one another, ignoring case>)`. */
  function AnyMatch(items: seq<string>, target: string): (b: bool)
    ensures b <==> exists i :: 0 <= i < |items| && MutuallyIncluded(items[i], target)
    decreases |items|
  {
    if items == [] then false
    else if MutuallyIncluded(items[0], target) then true
    else
      var b := AnyMatch(items[1..], target);
      assert forall i :: 1 <= i < |items| ==> items[1..][i - 1] == items[i];
      b
  }

  /** A filter result is non-empty exactly when some element passes. */
  lemma FilterNonEmpty(s: seq<string>, keep: string -> bool)
    ensures |Filter(s, keep)| > 0 <==> exists i :: 0 <= i < |s| && keep(s[i])
  {
    var r := Filter(s, keep);
    if |r| > 0 {
      assert r[0] in r;
    }
    if i :| 0 <= i < |s| && keep(s[i]) {
      assert s[i] in r;
    }
  }

  // ---------------------------------------------------------------------
  // The matchers

  /** `calculateGeographicMatch`. A missing location on either side gives 20;
      otherwise the closest level at which the two locations agree decides:
      city 100, state 70, country 50, none 20. A field absent on both sides
      counts as agreement, as `===` on two `undefined`s does. */
  function GeographicMatch(user: Option<Location>, trend: Option<Location>): (r: int)
    ensures r == 20 || r == 50 || r == 70 || r == 100
    ensures user.None? || trend.None? ==> r == 20
    ensures r == 100 <==> user.Some? && trend.Some? && user.value.city == trend.value.city
    ensures r >= 70 <==> (user.Some? && trend.Some?
      && (user.value.city == trend.value.city || user.value.state == trend.value.state))
    ensures r >= 50 <==> (user.Some? && trend.Some?
      && (user.value.city == trend.value.city || user.value.state == trend.value.state
          || user.value.country == trend.value.country))
  {
    if user.None? || trend.None? then 20
    else if user.value.city == trend.value.city then 100
    else if user.value.state == trend.value.state then 70
    else if user.value.country == trend.value.country then 50
    else 20
  }

  /** Two locations that both lack a city score as the same city, whatever
      their states and countries. */
  lemma MissingCitiesMatch(a: Location, b: Location)
    requires a.city.None? && b.city.None?
    ensures GeographicMatch(Some(a), Some(b)) == 100
  {
  }

  /** The user items that match some trend item, each as often as the user
      lists it. */
  function MatchedItems(userItems: seq<string>, trendItems: seq<string>): (r: seq<string>)
    ensures |r| <= |userItems|
    ensures forall x :: x in r <==> x in userItems && AnyMatch(trendItems, x)
    ensures forall x :: multiset(r)[x] == if AnyMatch(trendItems, x) then multiset(userItems)[x] else 0
  {
    Filter(userItems, item => AnyMatch(trendItems, item))
  }

  /** `calculateOverlapScore`: 0 when either list is empty; otherwise the share
      of user items matching some trend item, measured against the longer
      list, as a percentage (the cap at 100 never binds). */
  function OverlapScore(userItems: seq<string>, trendItems: seq<string>): (r: real)
    ensures |userItems| == 0 || |trendItems| == 0 ==> r == 0.0
    ensures 0.0 <= r <= 100.0
    ensures |userItems| > 0 && |trendItems| > 0 ==>
      r == Percentage(|MatchedItems(userItems, trendItems)|, Max(|userItems|, |trendItems|))
  {
    if |userItems| == 0 || |trendItems| == 0 then 0.0
    else
      var k := |MatchedItems(userItems, trendItems)|;
      var m := Max(|userItems|, |trendItems|);
      var ratio := Percentage(k, m);
      if ratio <= 100.0 then ratio else 100.0
  }

  /** `(k / m) * 100` for a part `k` of a whole `m`. */
  function Percentage(k: nat, m: nat): (p: real)
    requires k <= m && m > 0
    ensures 0.0 <= p <= 100.0
    ensures p * m as real == 100.0 * k as real
  {
    var q := k as real / m as real;
    assert q * m as real == k as real;
    q * 100.0
  }

  /** `calculateCategoryMatch`: 0 with no products, 80 when some product and
      the category contain one another (ignoring case), 20 otherwise. */
  function CategoryMatch(products: seq<string>, category: string): (r: int)
    ensures |products| == 0 ==> r == 0
    ensures |products| > 0 ==> (r == 80 || r == 20)
    ensures r == 80 <==> exists i :: 0 <= i < |products| && MutuallyIncluded(products[i], category)
  {
    if |products| == 0 then 0
    else
      var matches := Filter(products, product => MutuallyIncluded(product, category));
      FilterNonEmpty(products, product => MutuallyIncluded(product, category));
      if |matches| > 0 then 80 else 20
  }

  /** `calculateCapacityMatch`: 50 when the capacity is missing (empty) or the
      market size is 0; otherwise the capacity text decides, 'large' before
      'medium' before 'small', and 50 when it names none of them. The average
      price is not consulted. */
  function CapacityMatch(capacity: string, marketSize: int, avgPrice: int): (r: int)
    ensures r == 40 || r == 50 || r == 70 || r == 90
    ensures capacity == "" || marketSize == 0 ==> r == 50
    ensures capacity != "" && marketSize != 0 ==>
      && (r == 90 <==> Includes(Lower(capacity), "large"))
      && (r == 70 <==> !Includes(Lower(capacity), "large") && Includes(Lower(capacity), "medium"))
      && (r == 40 <==> !Includes(Lower(capacity), "large") && !Includes(Lower(capacity), "medium")
                       && Includes(Lower(capacity), "small"))
  {
    if capacity == "" || marketSize == 0 then 50
    else if Includes(Lower(capacity), "large") then 90
    else if Includes(Lower(capacity), "medium") then 70
    else if Includes(Lower(capacity), "small") then 40
    else 50
  }

  /** `calculateInterestMatch`: 100 when some interest and the category contain
      one another (ignoring case), 0 otherwise (also with no interests). */
  function InterestMatch(interests: seq<string>, category: string): (r: int)
    ensures r == 0 || r == 100
    ensures r == 100 <==> exists i :: 0 <= i < |interests| && MutuallyIncluded(interests[i], category)
  {
    if |interests| == 0 then 0
    else
      var matches := Filter(interests, interest => MutuallyIncluded(interest, category));
      FilterNonEmpty(interests, interest => MutuallyIncluded(interest, category));
      if |matches| > 0 then 100 else 0
  }

  // ---------------------------------------------------------------------
  // The explanation

  const Fallback: string := "Moderate market opportunity based on your profile"
  // The two longer sentences are written in two pieces: the verifier reasons
  // about the characters of short literals only.
  const ProcessReason: string := "Your existing processes " + "match market requirements"
  const PortfolioReason: string := "Aligns with your current product portfolio"
  const CompetitionReason: string := "Low competition with limited " + "suppliers in the market"

  /** `trend.geography?.city || 'target market'`. */
  function CityOrTarget(geography: Option<Location>): string
  {
    if geography.Some? && geography.value.city.Some? && geography.value.city.value != "" then
      geography.value.city.value
    else
      "target market"
  }

  function GeoReason(trend: Trend): string
  {
    "Strong geographic alignment with " + CityOrTarget(trend.geography)
  }

  function DemandReason(trend: Trend): string
  {
    "High market demand (" + IntString(trend.demandScore) + "% score)"
  }

  /** The five rules of `generateReasoning`, in the order it tests them. */
  predicate GeoRule(profile: Profile, trend: Trend)
  {
    GeographicMatch(profile.location, trend.geography) >= 70
  }

  predicate ProcessRule(profile: Profile, trend: Trend)
  {
    OverlapScore(profile.processes, trend.requiredSetup) >= 50.0
  }

  predicate PortfolioRule(profile: Profile, trend: Trend)
  {
    CategoryMatch(profile.currentProducts, trend.productCategory) >= 50
  }

  predicate DemandRule(trend: Trend) { trend.demandScore >= 80 }

  predicate CompetitionRule(trend: Trend) { trend.supplierDensity <= 20 }

  /** Every sentence a rule can contribute, in rule order. */
  function AllReasons(trend: Trend): seq<string>
  {
    [GeoReason(trend), ProcessReason, PortfolioReason, DemandReason(trend), CompetitionReason]
  }

  /** `[x]` when the rule fires, nothing otherwise. */
  function When(fires: bool, x: string): seq<string>
  {
    if fires then [x] else []
  }

  /** The five sentences are distinct: each opens with a different letter. */
  lemma ReasonsDistinct(trend: Trend)
    ensures GeoReason(trend)[0] == 'S' && ProcessReason[0] == 'Y' && PortfolioReason[0] == 'A'
    ensures DemandReason(trend)[0] == 'H' && CompetitionReason[0] == 'L'
  {
  }

  lemma WhenSubsequence(fires: bool, x: string, sub: seq<string>, s: seq<string>)
    requires IsSubsequence(sub, s)
    ensures IsSubsequence(When(fires, x) + sub, [x] + s)
  {
    if fires {
      assert ([x] + sub)[1..] == sub && ([x] + s)[1..] == s;
    } else {
      assert When(fires, x) + sub == sub;
      SubsequencePrepend(sub, x, s);
    }
  }

  /** Five rules, each contributing its own distinct sentence when it fires,
      give exactly the sentences of the rules that fire, in rule order. */
  lemma RuleSentences(b1: bool, b2: bool, b3: bool, b4: bool, b5: bool,
                      x1: string, x2: string, x3: string, x4: string, x5: string)
    requires x1 != x2 && x1 != x3 && x1 != x4 && x1 != x5 && x2 != x3
    requires x2 != x4 && x2 != x5 && x3 != x4 && x3 != x5 && x4 != x5
    ensures var rs := When(b1, x1) + (When(b2, x2) + (When(b3, x3) + (When(b4, x4) + When(b5, x5))));
      && IsSubsequence(rs, [x1, x2, x3, x4, x5])
      && |rs| <= 5
      && (x1 in rs <==> b1) && (x2 in rs <==> b2) && (x3 in rs <==> b3)
      && (x4 in rs <==> b4) && (x5 in rs <==> b5)
      && (rs == [] <==> !b1 && !b2 && !b3 && !b4 && !b5)
  {
    RuleOrder(b1, b2, b3, b4, b5, x1, x2, x3, x4, x5);
    var w5 := When(b5, x5);
    var w4 := When(b4, x4) + w5;
    var w3 := When(b3, x3) + w4;
    var w2 := When(b2, x2) + w3;
    var rs := When(b1, x1) + w2;
    forall y
      ensures y in rs <==> (b1 && y == x1) || (b2 && y == x2) || (b3 && y == x3) || (b4 && y == x4) || (b5 && y == x5)
    {
      InWhen(b1, x1, w2, y);
      InWhen(b2, x2, w3, y);
      InWhen(b3, x3, w4, y);
      InWhen(b4, x4, w5, y);
    }
  }

  lemma InWhen(fires: bool, x: string, rest: seq<string>, y: string)
    ensures y in When(fires, x) + rest <==> (fires && y == x) || y in rest
  {
  }

  lemma RuleOrder(b1: bool, b2: bool, b3: bool, b4: bool, b5: bool,
                  x1: string, x2: string, x3: string, x4: string, x5: string)
    ensures var rs := When(b1, x1) + (When(b2, x2) + (When(b3, x3) + (When(b4, x4) + When(b5, x5))));
      IsSubsequence(rs, [x1, x2, x3, x4, x5]) && |rs| <= 5
  {
    var w5 := When(b5, x5);
    var w4 := When(b4, x4) + w5;
    var w3 := When(b3, x3) + w4;
    var w2 := When(b2, x2) + w3;
    var rs := When(b1, x1) + w2;
    assert IsSubsequence(w5, [x5]);
    WhenSubsequence(b4, x4, w5, [x5]);
    WhenSubsequence(b3, x3, w4, [x4, x5]);
    assert [x3] + [x4, x5] == [x3, x4, x5];
    WhenSubsequence(b2, x2, w3, [x3, x4, x5]);
    assert [x2] + [x3, x4, x5] == [x2, x3, x4, x5];
    WhenSubsequence(b1, x1, w2, [x2, x3, x4, x5]);
    assert [x1] + [x2, x3, x4, x5] == [x1, x2, x3, x4, x5];
    SubsequenceLength(rs, [x1, x2, x3, x4, x5]);
  }

  /** The reasons `generateReasoning` collects: exactly the sentences of the
      rules that fire, in rule order. */
  function Reasons(profile: Profile, trend: Trend): (rs: seq<string>)
    ensures IsSubsequence(rs, AllReasons(trend))
    ensures |rs| <= 5
    ensures GeoReason(trend) in rs <==> GeoRule(profile, trend)
    ensures ProcessReason in rs <==> ProcessRule(profile, trend)
    ensures PortfolioReason in rs <==> PortfolioRule(profile, trend)
    ensures DemandReason(trend) in rs <==> DemandRule(trend)
    ensures CompetitionReason in rs <==> CompetitionRule(trend)
    ensures rs == [] <==>
      !GeoRule(profile, trend) && !ProcessRule(profile, trend) && !PortfolioRule(profile, trend)
      && !DemandRule(trend) && !CompetitionRule(trend)
  {
    ReasonsDistinct(trend);
    RuleSentences(GeoRule(profile, trend), ProcessRule(profile, trend), PortfolioRule(profile, trend),
      DemandRule(trend), CompetitionRule(trend),
      GeoReason(trend), ProcessReason, PortfolioReason, DemandReason(trend), CompetitionReason);
    When(GeoRule(profile, trend), GeoReason(trend))
    + (When(ProcessRule(profile, trend), ProcessReason)
    + (When(PortfolioRule(profile, trend), PortfolioReason)
    + (When(DemandRule(trend), DemandReason(trend))
    + When(CompetitionRule(trend), CompetitionReason))))
  }

  /** Every string joined into the result occurs in it. */
  lemma JoinIncludesEach(xs: seq<string>, sep: string, i: int)
    requires 0 <= i < |xs|
    ensures Includes(Join(xs, sep), xs[i])
  {
    var r := Join(xs, sep);
    assert PieceEnd(xs, sep, i) <= |r| && r[Offset(xs, sep, i)..PieceEnd(xs, sep, i)] == xs[i];
    assert OccursAt(r, xs[i], Offset(xs, sep, i));
  }

  /** Sentences joined by ". " and closed by a full stop: apart from the
      final '.', the result is the sentences laid out with ". " between
      neighbours; it contains every sentence and opens with the first. */
  function Paragraph(shown: seq<string>): (r: string)
    requires |shown| >= 1
    ensures |r| >= 1 && r[|r| - 1] == '.'
    ensures JoinedBy(r[..|r| - 1], shown, ". ")
    ensures forall i :: 0 <= i < |shown| ==> Includes(r, shown[i])
    ensures |r| > |shown[0]| && r[..|shown[0]|] == shown[0]
  {
    var joined := Join(shown, ". ");
    var r := joined + ".";
    assert r[..|r| - 1] == joined;
    assert PieceEnd(shown, ". ", 0) <= |joined| && joined[Offset(shown, ". ", 0)..PieceEnd(shown, ". ", 0)] == shown[0];
    assert forall i :: 0 <= i < |shown| ==> Includes(r, shown[i]) by {
      forall i | 0 <= i < |shown|
        ensures Includes(r, shown[i])
      {
        JoinIncludesEach(shown, ". ", i);
        var k :| OccursAt(joined, shown[i], k);
        assert r[k..k + |shown[i]|] == joined[k..k + |shown[i]|];
        assert OccursAt(r, shown[i], k);
      }
    }
    r
  }

  /** The closing statement of `generateReasoning`: the first three reasons
      (the fallback sentence when there are none), separated by ". " and
      closed by a full stop; a fourth or fifth reason is never shown. */
  function Explanation(rs: seq<string>): (r: string)
    ensures |r| >= 1 && r[|r| - 1] == '.'
    ensures rs == [] ==> r == Fallback + "."
    ensures rs != [] ==> JoinedBy(r[..|r| - 1], rs[..Min(3, |rs|)], ". ")
    ensures forall i :: 0 <= i < Min(3, |rs|) ==> Includes(r, rs[i])
    ensures rs != [] ==> |r| > |rs[0]| && r[..|rs[0]|] == rs[0]
  {
    var shown := if rs == [] then [Fallback] else rs[..Min(3, |rs|)];
    assert forall i :: 0 <= i < Min(3, |rs|) ==> shown[i] == rs[i];
    Paragraph(shown)
  }

  /** `generateReasoning`: the explanation of the reasons that fire. The fit
      score argument is not consulted. */
  function GenerateReasoning(profile: Profile, trend: Trend, fitScore: int): (r: string)
    ensures |r| >= 1 && r[|r| - 1] == '.'
    ensures Reasons(profile, trend) == [] ==> r == Fallback + "."
  {
    Explanation(Reasons(profile, trend))
  }

  /** With the geographic rule firing, the explanation opens with the
      geographic sentence, since that rule is tested first. */
  lemma ReasoningOpening(profile: Profile, trend: Trend, fitScore: int)
    ensures GeoRule(profile, trend) ==>
      var g := GeoReason(trend);
      GenerateReasoning(profile, trend, fitScore)[..|g|] == g
  {
  }

  // ---------------------------------------------------------------------
  // Capability gaps

  const LowInvestment: string := "Low to Medium"
  const HighInvestment: string := "Medium to High"
  const ShortTimeline: string := "1-3 months"
  const LongTimeline: string := "6-12 months"

  datatype SetupAnalysis = SetupAnalysis(
    requiredSetup: seq<string>,
    capabilityGaps: seq<string>,
    estimatedInvestment: string,
    timeline: string)

  /** The required items no capability matches, in their original order. */
  function Gaps(capabilities: seq<string>, required: seq<string>): (gaps: seq<string>)
    ensures IsSubsequence(gaps, required)
    ensures forall x :: x in gaps <==> x in required && !AnyMatch(capabilities, x)
    ensures forall x :: multiset(gaps)[x] == if AnyMatch(capabilities, x) then 0 else multiset(required)[x]
  {
    Filter(required, req => !AnyMatch(capabilities, req))
  }

  /** `analyzeSetupRequirements`: the required setup echoed back, the gaps
      against the user's processes and certifications, and the investment and
      timeline labels the number of gaps selects. */
  function AnalyzeSetupRequirements(profile: Profile, trend: Trend): (a: SetupAnalysis)
    ensures a.requiredSetup == trend.requiredSetup
    ensures a.capabilityGaps == Gaps(profile.processes + profile.certifications, trend.requiredSetup)
    ensures a.estimatedInvestment == LowInvestment || a.estimatedInvestment == HighInvestment
    ensures a.estimatedInvestment == LowInvestment <==> a.capabilityGaps == []
    ensures a.timeline == ShortTimeline || a.timeline == LongTimeline
    ensures a.timeline == LongTimeline <==> |a.capabilityGaps| > 2
  {
    var capabilities := profile.processes + profile.certifications;
    var required := trend.requiredSetup;
    var gaps := Gaps(capabilities, required);
    SetupAnalysis(
      required,
      gaps,
      if |gaps| > 0 then HighInvestment else LowInvestment,
      if |gaps| > 2 then LongTimeline else ShortTimeline)
  }

  /** A required item matched by some capability is never reported as a gap;
      an item no capability matches always is. */
  lemma GapIff(profile: Profile, trend: Trend, i: int)
    requires 0 <= i < |trend.requiredSetup|
    ensures var req := trend.requiredSetup[i];
      req in AnalyzeSetupRequirements(profile, trend).capabilityGaps
      <==> !exists j :: 0 <= j < |profile.processes + profile.certifications|
                && MutuallyIncluded((profile.processes + profile.certifications)[j], req)
  {
  }

  /** Matching a capability does not depend on where it is listed. */
  lemma AnyMatchAppend(a: seq<string>, b: seq<string>, x: string)
    ensures AnyMatch(a + b, x) <==> AnyMatch(a, x) || AnyMatch(b, x)
  {
    if AnyMatch(a + b, x) {
      var i :| 0 <= i < |a + b| && MutuallyIncluded((a + b)[i], x);
      if i >= |a| {
        assert b[i - |a|] == (a + b)[i];
      }
    }
    if AnyMatch(a, x) {
      var i :| 0 <= i < |a| && MutuallyIncluded(a[i], x);
      assert (a + b)[i] == a[i];
    }
    if AnyMatch(b, x) {
      var i :| 0 <= i < |b| && MutuallyIncluded(b[i], x);
      assert (a + b)[|a| + i] == b[i];
    }
  }

  /** Prepending an element to a list keeps every subsequence of it one. */
  lemma {:induction false} SubsequencePrepend<T>(sub: seq<T>, x: T, s: seq<T>)
    requires IsSubsequence(sub, s)
    ensures IsSubsequence(sub, [x] + s)
    decreases |s|, 1
  {
    assert ([x] + s)[1..] == s;
    if sub != [] && sub[0] == x {
      SubsequenceDropFirst(sub, s);
    }
  }

  /** Dropping the first element of a subsequence leaves a subsequence. */
  lemma {:induction false} SubsequenceDropFirst<T>(sub: seq<T>, s: seq<T>)
    requires sub != [] && IsSubsequence(sub, s)
    ensures IsSubsequence(sub[1..], s)
    decreases |s|, 0
  {
    assert s != [];
    if sub[0] == s[0] {
      SubsequencePrepend(sub[1..], s[0], s[1..]);
      assert [s[0]] + s[1..] == s;
    } else {
      SubsequenceDropFirst(sub, s[1..]);
      SubsequencePrepend(sub[1..], s[0], s[1..]);
      assert [s[0]] + s[1..] == s;
    }
  }

  /** A subsequence is no longer than the list it is taken from. */
  lemma {:induction false} SubsequenceLength<T>(sub: seq<T>, s: seq<T>)
    requires IsSubsequence(sub, s)
    ensures |sub| <= |s|
    decreases |s|
  {
    if sub != [] {
      if sub[0] == s[0] {
        SubsequenceLength(sub[1..], s[1..]);
      } else {
        SubsequenceLength(sub, s[1..]);
      }
    }
  }

  /** Filtering with a stricter test keeps a subsequence of what the looser
      test keeps. */
  lemma {:induction false} FilterStricter(s: seq<string>, strict: string -> bool, loose: string -> bool)
    requires forall x :: strict(x) ==> loose(x)
    ensures IsSubsequence(Filter(s, strict), Filter(s, loose))
    decreases |s|
  {
    if s != [] {
      FilterStricter(s[1..], strict, loose);
      var fs, fl := Filter(s[1..], strict), Filter(s[1..], loose);
      if strict(s[0]) {
        assert Filter(s, strict) == [s[0]] + fs && Filter(s, loose) == [s[0]] + fl;
        assert ([s[0]] + fs)[1..] == fs && ([s[0]] + fl)[1..] == fl;
      } else if loose(s[0]) {
        assert Filter(s, strict) == fs && Filter(s, loose) == [s[0]] + fl;
        SubsequencePrepend(fs, s[0], fl);
      }
    }
  }

  /** Gaining capabilities never adds a gap: the gaps left are a subsequence
      of the gaps before, so there are no more of them. */
  lemma MoreCapabilitiesFewerGaps(caps: seq<string>, extra: seq<string>, required: seq<string>)
    ensures IsSubsequence(Gaps(caps + extra, required), Gaps(caps, required))
    ensures |Gaps(caps + extra, required)| <= |Gaps(caps, required)|
  {
    var keepBoth := (req: string) => !AnyMatch(caps + extra, req);
    var keepCaps := (req: string) => !AnyMatch(caps, req);
    forall x | keepBoth(x)
      ensures keepCaps(x)
    {
      AnyMatchAppend(caps, extra, x);
    }
    FilterStricter(required, keepBoth, keepCaps);
    assert Gaps(caps + extra, required) == Filter(required, keepBoth);
    assert Gaps(caps, required) == Filter(required, keepCaps);
    SubsequenceLength(Gaps(caps + extra, required), Gaps(caps, required));
  }

  // ---------------------------------------------------------------------
  // Selection: keep the good fits, best first, at most twenty

  const MinFit: int := 40
  const MaxResults: int := 20

  /** A stored recommendation, as far as the ranking sees it. */
  datatype Recommendation = Recommendation(trendId: string, fitScore: int)

  /** One trend's scored recommendation and whether inserting it into the
      recommendations table succeeded (a failed insert is skipped). */
  datatype Candidate = Candidate(rec: Recommendation, saved: bool)

  predicate Kept(c: Candidate)
  {
    c.rec.fitScore >= MinFit && c.saved
  }

  /** Every candidate's recommendation, in trend order. */
  function RecsOf(cands: seq<Candidate>): (recs: seq<Recommendation>)
    ensures |recs| == |cands| && forall i :: 0 <= i < |cands| ==> recs[i] == cands[i].rec
  {
    seq(|cands|, i requires 0 <= i < |cands| => cands[i].rec)
  }

  /** The recommendations the loop collects: those of the candidates with a
      fit of at least 40 whose insert succeeded, and no others, in trend
      order. */
  function Collected(cands: seq<Candidate>): (recs: seq<Recommendation>)
    ensures |recs| <= |cands|
    ensures forall r :: r in recs ==> r.fitScore >= MinFit
    ensures forall i :: 0 <= i < |cands| && Kept(cands[i]) ==> cands[i].rec in recs
    ensures forall r :: r in recs ==> exists i :: 0 <= i < |cands| && Kept(cands[i]) && cands[i].rec == r
    ensures IsSubsequence(recs, RecsOf(cands))
    decreases |cands|
  {
    if cands == [] then []
    else
      var rest := Collected(cands[1..]);
      assert forall i :: 1 <= i < |cands| ==> cands[1..][i - 1] == cands[i];
      assert RecsOf(cands) == [cands[0].rec] + RecsOf(cands[1..]);
      if Kept(cands[0]) then
        assert ([cands[0].rec] + rest)[1..] == rest;
        [cands[0].rec] + rest
      else
        SubsequencePrepend(rest, cands[0].rec, RecsOf(cands[1..]));
        rest
  }

  predicate SortedByFitDescending(s: seq<Recommendation>)
  {
    forall i, j :: 0 <= i < j < |s| ==> s[i].fitScore >= s[j].fitScore
  }

  /** Exchanges two neighbouring elements. */
  method SwapWithPrevious(a: array<Recommendation>, j: int)
    requires 0 < j < a.Length
    modifies a
    ensures a[..] == old(a[..])[j - 1 := old(a[j])][j := old(a[j - 1])]
    ensures multiset(a[..]) == old(multiset(a[..]))
  {
    a[j - 1], a[j] := a[j], a[j - 1];
  }

  /** One step of the sort: moves `a[i]` left past every smaller fit score, so
      that the sorted prefix grows by one; nothing after `i` moves. */
  method InsertDescending(a: array<Recommendation>, i: int)
    requires 0 <= i < a.Length
    requires forall k, l :: 0 <= k < l < i ==> a[k].fitScore >= a[l].fitScore
    modifies a
    ensures forall k, l :: 0 <= k < l <= i ==> a[k].fitScore >= a[l].fitScore
    ensures multiset(a[..]) == old(multiset(a[..]))
    ensures a[i + 1..] == old(a[i + 1..])
    ensures multiset(a[..i + 1]) == old(multiset(a[..i + 1]))
  {
    var j := i;
    InsertionStarts(a[..], i);
    while j > 0 && a[j - 1].fitScore < a[j].fitScore
      invariant 0 <= j <= i
      invariant Inserting(a[..], old(a[..]), i, j)
      invariant multiset(a[..]) == old(multiset(a[..]))
    {
      ghost var before := a[..];
      SwapWithPrevious(a, j);
      InsertionSteps(before, old(a[..]), i, j);
      j := j - 1;
    }
    InsertionDone(a[..], old(a[..]), i, j);
    PrefixPermuted(old(a[..]), a[..], i + 1);
  }

  /** The state of an insertion step that has moved the element it inserts
      to `j`: the order is as `SortedExcept` and `AboveRest` say and
      nothing after `hi` has moved from where it was in `o`. */
  ghost predicate Inserting(s: seq<Recommendation>, o: seq<Recommendation>, hi: int, j: int)
  {
    && 0 <= j <= hi < |s| == |o|
    && SortedExcept(s, hi, j) && AboveRest(s, hi, j)
    && s[hi + 1..] == o[hi + 1..]
  }

  /** Up to `hi`, the fit scores descend except where the element at `j` is
      concerned. */
  ghost predicate SortedExcept(s: seq<Recommendation>, hi: int, j: int)
  {
    forall k, l :: 0 <= k < l <= hi && l < |s| && k != j && l != j ==> s[k].fitScore >= s[l].fitScore
  }

  /** The element at `j` outscores everything after it up to `hi`. */
  ghost predicate AboveRest(s: seq<Recommendation>, hi: int, j: int)
  {
    0 <= j < |s| && forall l :: j < l <= hi && l < |s| ==> s[j].fitScore > s[l].fitScore
  }

  lemma InsertionStarts(s: seq<Recommendation>, hi: int)
    requires 0 <= hi < |s|
    requires forall k, l :: 0 <= k < l < hi ==> s[k].fitScore >= s[l].fitScore
    ensures Inserting(s, s, hi, hi)
  {
  }

  lemma InsertionSteps(s: seq<Recommendation>, o: seq<Recommendation>, hi: int, j: int)
    requires Inserting(s, o, hi, j) && 0 < j
    requires s[j - 1].fitScore < s[j].fitScore
    ensures Inserting(s[j - 1 := s[j]][j := s[j - 1]], o, hi, j - 1)
  {
    SwapKeepsOrder(s, hi, j);
    SwapKeepsRest(s, hi, j);
  }

  lemma SwapKeepsOrder(s: seq<Recommendation>, hi: int, j: int)
    requires 0 < j <= hi < |s|
    requires SortedExcept(s, hi, j) && AboveRest(s, hi, j)
    requires s[j - 1].fitScore < s[j].fitScore
    ensures var t := s[j - 1 := s[j]][j := s[j - 1]];
      SortedExcept(t, hi, j - 1) && AboveRest(t, hi, j - 1)
  {
  }

  lemma SwapKeepsRest(s: seq<Recommendation>, hi: int, j: int)
    requires 0 < j <= hi < |s|
    ensures s[j - 1 := s[j]][j := s[j - 1]][hi + 1..] == s[hi + 1..]
  {
  }

  lemma InsertionDone(s: seq<Recommendation>, o: seq<Recommendation>, hi: int, j: int)
    requires Inserting(s, o, hi, j)
    requires j == 0 || s[j - 1].fitScore >= s[j].fitScore
    ensures forall k, l :: 0 <= k < l <= hi ==> s[k].fitScore >= s[l].fitScore
    ensures s[hi + 1..] == o[hi + 1..]
  {
  }

  /** Two lists that are permutations of each other and agree from `k` on
      are permutations of each other before `k`. */
  lemma PrefixPermuted(s: seq<Recommendation>, t: seq<Recommendation>, k: int)
    requires 0 <= k <= |s| == |t| && multiset(s) == multiset(t) && s[k..] == t[k..]
    ensures multiset(s[..k]) == multiset(t[..k])
  {
    MultisetSplit(s, k);
    MultisetSplit(t, k);
    forall x
      ensures multiset(s[..k])[x] == multiset(t[..k])[x]
    {
      assert multiset(s)[x] == multiset(s[..k])[x] + multiset(s[k..])[x];
      assert multiset(t)[x] == multiset(t[..k])[x] + multiset(t[k..])[x];
    }
  }

  lemma MultisetSplit(s: seq<Recommendation>, k: int)
    requires 0 <= k <= |s|
    ensures multiset(s) == multiset(s[..k]) + multiset(s[k..])
  {
    assert s == s[..k] + s[k..];
  }

  /** `recommendations.sort((a, b) => b.fit_score - a.fit_score)`, in place. */
  method SortByFitDescending(a: array<Recommendation>)
    modifies a
    ensures SortedByFitDescending(a[..])
    ensures multiset(a[..]) == old(multiset(a[..]))
  {
    var i := 0;
    while i < a.Length
      invariant 0 <= i <= a.Length
      invariant forall k, l :: 0 <= k < l < i ==> a[k].fitScore >= a[l].fitScore
      invariant multiset(a[..]) == old(multiset(a[..]))
    {
      InsertDescending(a, i);
      i := i + 1;
    }
  }

  /** `top` is drawn from `all`, and nothing in `all` left out of `top` has a
      higher fit score than anything in `top`. */
  ghost predicate BestOf(top: seq<Recommendation>, all: multiset<Recommendation>)
  {
    && multiset(top) <= all
    && forall r, q :: r in all - multiset(top) && q in top ==> r.fitScore <= q.fitScore
  }

  predicate AllGoodFits(s: seq<Recommendation>)
  {
    forall r :: r in s ==> r.fitScore >= MinFit
  }

  /** The first `n` elements of a list sorted best first are the best of it. */
  lemma SortedPrefixIsBest(sorted: seq<Recommendation>, n: int)
    requires SortedByFitDescending(sorted) && 0 <= n <= |sorted|
    ensures BestOf(sorted[..n], multiset(sorted))
  {
    var top, rest := sorted[..n], sorted[n..];
    assert sorted == top + rest;
    MultisetOfConcat(top, rest);
    forall r: Recommendation, q: Recommendation | r in multiset(rest) && q in top
      ensures r.fitScore <= q.fitScore
    {
      RestBelowPrefix(sorted, n, r, q);
    }
  }

  lemma RestBelowPrefix(sorted: seq<Recommendation>, n: int, r: Recommendation, q: Recommendation)
    requires SortedByFitDescending(sorted) && 0 <= n <= |sorted|
    requires r in sorted[n..] && q in sorted[..n]
    ensures r.fitScore <= q.fitScore
  {
    var x :| n <= x < |sorted| && sorted[x] == r;
    var y :| 0 <= y < n && sorted[y] == q;
  }

  lemma SortedPrefix(sorted: seq<Recommendation>, n: int)
    requires SortedByFitDescending(sorted) && 0 <= n <= |sorted|
    ensures SortedByFitDescending(sorted[..n])
  {
    var top := sorted[..n];
    forall i, j | 0 <= i < j < |top|
      ensures top[i].fitScore >= top[j].fitScore
    {
      assert top[i] == sorted[i] && top[j] == sorted[j];
    }
  }

  lemma MultisetOfConcat(top: seq<Recommendation>, rest: seq<Recommendation>)
    ensures multiset(top + rest) - multiset(top) == multiset(rest)
    ensures multiset(top) <= multiset(top + rest)
  {
    assert multiset(top + rest) == multiset(top) + multiset(rest);
  }

  /** A permutation of good fits holds only good fits, and so does any prefix. */
  lemma GoodFitsPermuted(s: seq<Recommendation>, t: seq<Recommendation>, n: int)
    requires AllGoodFits(s) && multiset(s) == multiset(t) && 0 <= n <= |t|
    ensures AllGoodFits(t[..n])
  {
    forall r | r in t[..n]
      ensures r.fitScore >= MinFit
    {
      assert r in multiset(t);
    }
  }

  /** Collecting one more candidate at the end extends the collection by
      that candidate's recommendation exactly when it is kept. */
  lemma {:induction false} CollectedSnoc(cands: seq<Candidate>, c: Candidate)
    ensures Collected(cands + [c]) == Collected(cands) + if Kept(c) then [c.rec] else []
    decreases |cands|
  {
    if cands == [] {
      assert [c][1..] == [];
    } else {
      assert (cands + [c])[1..] == cands[1..] + [c];
      CollectedSnoc(cands[1..], c);
    }
  }

  /** The loop of the request handler that scores every trend and keeps the
      recommendations worth storing. */
  method CollectRecommendations(cands: seq<Candidate>) returns (recommendations: seq<Recommendation>)
    ensures recommendations == Collected(cands)
    ensures AllGoodFits(recommendations)
  {
    recommendations := [];
    for i := 0 to |cands|
      invariant recommendations == Collected(cands[..i])
    {
      assert cands[..i + 1] == cands[..i] + [cands[i]];
      CollectedSnoc(cands[..i], cands[i]);
      if cands[i].rec.fitScore >= MinFit && cands[i].saved {
        recommendations := recommendations + [cands[i].rec];
      }
    }
    assert cands[..|cands|] == cands;
  }

  method ToArray(s: seq<Recommendation>) returns (a: array<Recommendation>)
    ensures fresh(a) && a[..] == s
  {
    a := new Recommendation[|s|](k requires 0 <= k < |s| => s[k]);
  }

  /** The ranking step of the request handler: collect the fits of at least 40
      whose insert succeeded, sort them by fit score, best first, and return the
      first twenty. What is returned is the best of what was collected: none
      of the recommendations left out has a higher score than one returned. */
  method SelectTop(cands: seq<Candidate>) returns (top: seq<Recommendation>)
    ensures |top| == Min(MaxResults, |Collected(cands)|)
    ensures AllGoodFits(top)
    ensures SortedByFitDescending(top)
    ensures BestOf(top, multiset(Collected(cands)))
  {
    var recommendations := CollectRecommendations(cands);
    var a := ToArray(recommendations);
    SortByFitDescending(a);
    var sorted := a[..];
    var n := Min(MaxResults, a.Length);
    top := sorted[..n];
    SortedPrefixIsBest(sorted, n);
    SortedPrefix(sorted, n);
    GoodFitsPermuted(recommendations, sorted, n);
  }
}
