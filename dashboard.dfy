/** The statistics of `get_dashboard_stats` for one project: the number of
    its requirements, the share of each status, and the shares of
    requirements that have children and that have verification methods.
    Shares are exact percentages; the handler's rounding to one decimal is
    not modelled. */
module Dashboard {
  import opened Records

  function WithStatus(reqs: map<Id, Requirement>, projectId: Id, s: RequirementStatus): (ids: set<Id>)
    ensures ids <= InProject(reqs, projectId)
  {
    set k | k in reqs && reqs[k].projectId == projectId && reqs[k].status == s
  }

  /** The requirements whose `child_ids` has a first element. */
  function WithChildren(reqs: map<Id, Requirement>, projectId: Id): (ids: set<Id>)
    ensures ids <= InProject(reqs, projectId)
  {
    set k | k in reqs && reqs[k].projectId == projectId && |reqs[k].childIds| > 0
  }

  /** The requirements whose `verification_methods` has a first element. */
  function WithVerification(reqs: map<Id, Requirement>, projectId: Id): (ids: set<Id>)
    ensures ids <= InProject(reqs, projectId)
  {
    set k | k in reqs && reqs[k].projectId == projectId && |reqs[k].verificationMethods| > 0
  }

  /** `count / total * 100`, or 0 when there is nothing to count. */
  function Percentage(count: nat, total: nat): (p: real)
    ensures total == 0 ==> p == 0.0
    ensures total > 0 ==> p * total as real == 100.0 * count as real
    ensures count <= total ==> 0.0 <= p <= 100.0
  {
    if total > 0 then count as real / total as real * 100.0 else 0.0
  }

  datatype Stats = Stats(
    totalRequirements: nat,
    statusPercentages: map<RequirementStatus, real>,
    childrenAssignmentPercentage: real,
    verificationMethodsPercentage: real)

  function DashboardStats(reqs: map<Id, Requirement>, projectId: Id): (st: Stats)
    ensures st.totalRequirements == |InProject(reqs, projectId)|
    ensures st.statusPercentages.Keys == {Draft, InReview, Accepted, Implemented, Tested}
    ensures forall s | s in st.statusPercentages ::
      st.statusPercentages[s] == Percentage(|WithStatus(reqs, projectId, s)|, st.totalRequirements)
    ensures st.childrenAssignmentPercentage == Percentage(|WithChildren(reqs, projectId)|, st.totalRequirements)
    ensures st.verificationMethodsPercentage == Percentage(|WithVerification(reqs, projectId)|, st.totalRequirements)
  {
    var total := |InProject(reqs, projectId)|;
    Stats(
      total,
      map[Draft := Percentage(|WithStatus(reqs, projectId, Draft)|, total),
          InReview := Percentage(|WithStatus(reqs, projectId, InReview)|, total),
          Accepted := Percentage(|WithStatus(reqs, projectId, Accepted)|, total),
          Implemented := Percentage(|WithStatus(reqs, projectId, Implemented)|, total),
          Tested := Percentage(|WithStatus(reqs, projectId, Tested)|, total)],
      Percentage(|WithChildren(reqs, projectId)|, total),
      Percentage(|WithVerification(reqs, projectId)|, total))
  }

  lemma SubsetCard(a: set<Id>, b: set<Id>)
    requires a <= b
    ensures |a| <= |b|
  {
    assert b == a + (b - a);
  }

  /** Each percentage is the count over the total times 100, so it lies
      between 0 and 100; a project with no requirements gets 0 everywhere. */
  lemma StatsInRange(reqs: map<Id, Requirement>, projectId: Id)
    ensures var st := DashboardStats(reqs, projectId);
      && (forall s | s in st.statusPercentages :: 0.0 <= st.statusPercentages[s] <= 100.0)
      && 0.0 <= st.childrenAssignmentPercentage <= 100.0
      && 0.0 <= st.verificationMethodsPercentage <= 100.0
      && (st.totalRequirements == 0 ==>
            && (forall s | s in st.statusPercentages :: st.statusPercentages[s] == 0.0)
            && st.childrenAssignmentPercentage == 0.0
            && st.verificationMethodsPercentage == 0.0)
  {
    var all := InProject(reqs, projectId);
    forall s: RequirementStatus ensures |WithStatus(reqs, projectId, s)| <= |all| {
      SubsetCard(WithStatus(reqs, projectId, s), all);
    }
    SubsetCard(WithChildren(reqs, projectId), all);
    SubsetCard(WithVerification(reqs, projectId), all);
  }

  /** Every requirement has exactly one status, so the status counts add up
      to the total. */
  lemma StatusCountsPartition(reqs: map<Id, Requirement>, projectId: Id)
    ensures |WithStatus(reqs, projectId, Draft)| + |WithStatus(reqs, projectId, InReview)|
            + |WithStatus(reqs, projectId, Accepted)| + |WithStatus(reqs, projectId, Implemented)|
            + |WithStatus(reqs, projectId, Tested)| == |InProject(reqs, projectId)|
  {
    var d := WithStatus(reqs, projectId, Draft);
    var r := WithStatus(reqs, projectId, InReview);
    var a := WithStatus(reqs, projectId, Accepted);
    var i := WithStatus(reqs, projectId, Implemented);
    var t := WithStatus(reqs, projectId, Tested);
    forall k | k in InProject(reqs, projectId) ensures k in d + r + a + i + t {
      match reqs[k].status
      case Draft => assert k in d;
      case InReview => assert k in r;
      case Accepted => assert k in a;
      case Implemented => assert k in i;
      case Tested => assert k in t;
    }
    assert InProject(reqs, projectId) == d + r + a + i + t;
    DisjointUnionCard(d, r);
    DisjointUnionCard(d + r, a);
    DisjointUnionCard(d + r + a, i);
    DisjointUnionCard(d + r + a + i, t);
  }

  lemma DisjointUnionCard(a: set<Id>, b: set<Id>)
    requires a * b == {}
    ensures |a + b| == |a| + |b|
  {
  }

  /** For a project with requirements the five status percentages add up to
      100. */
  lemma StatusSharesSumTo100(reqs: map<Id, Requirement>, projectId: Id)
    requires |InProject(reqs, projectId)| > 0
    ensures var p := DashboardStats(reqs, projectId).statusPercentages;
      p[Draft] + p[InReview] + p[Accepted] + p[Implemented] + p[Tested] == 100.0
  {
    StatusCountsPartition(reqs, projectId);
    SharesOfPartition(
      |WithStatus(reqs, projectId, Draft)|, |WithStatus(reqs, projectId, InReview)|,
      |WithStatus(reqs, projectId, Accepted)|, |WithStatus(reqs, projectId, Implemented)|,
      |WithStatus(reqs, projectId, Tested)|, |InProject(reqs, projectId)|);
  }

  lemma SharesOfPartition(a: nat, b: nat, c: nat, d: nat, e: nat, total: nat)
    requires total > 0 && a + b + c + d + e == total
    ensures Percentage(a, total) + Percentage(b, total) + Percentage(c, total)
            + Percentage(d, total) + Percentage(e, total) == 100.0
  {
    var f := 100.0 / total as real;
    PercentageScales(a, total);
    PercentageScales(b, total);
    PercentageScales(c, total);
    PercentageScales(d, total);
    PercentageScales(e, total);
    calc {
      a as real * f + b as real * f + c as real * f + d as real * f + e as real * f;
      (a as real + b as real + c as real + d as real + e as real) * f;
      total as real * f;
      100.0;
    }
  }

  lemma PercentageScales(count: nat, total: nat)
    requires total > 0
    ensures Percentage(count, total) == count as real * (100.0 / total as real)
  {
  }

  /** Four requirements of one project with statuses Draft, Draft,
      Implemented and Tested, made from one template record. */
  function FourRequirements(t: Requirement): map<Id, Requirement>
  {
    map["a" := t.(id := "a", status := Draft),
        "b" := t.(id := "b", status := Draft),
        "c" := t.(id := "c", status := Implemented),
        "d" := t.(id := "d", status := Tested)]
  }

  /** The worked example: two Draft, one Implemented and one Tested give
      50, 0, 0, 25 and 25 percent. */
  lemma FourRequirementsShares(t: Requirement)
    ensures DashboardStats(FourRequirements(t), t.projectId).statusPercentages
      == map[Draft := 50.0, InReview := 0.0, Accepted := 0.0, Implemented := 25.0, Tested := 25.0]
  {
    var reqs := FourRequirements(t);
    var p := t.projectId;
    FourRequirementsTotal(t);
    FourRequirementsCount(t, Draft, {"a", "b"});
    FourRequirementsCount(t, InReview, {});
    FourRequirementsCount(t, Accepted, {});
    FourRequirementsCount(t, Implemented, {"c"});
    FourRequirementsCount(t, Tested, {"d"});
    assert |{"a", "b"}| == 2;
    assert Percentage(2, 4) == 50.0 && Percentage(1, 4) == 25.0 && Percentage(0, 4) == 0.0;
  }

  lemma FourRequirementsTotal(t: Requirement)
    ensures |InProject(FourRequirements(t), t.projectId)| == 4
  {
    assert InProject(FourRequirements(t), t.projectId) == {"a", "b", "c", "d"};
  }

  lemma FourRequirementsCount(t: Requirement, s: RequirementStatus, ids: set<Id>)
    requires ids == match s
      case Draft => {"a", "b"}
      case Implemented => {"c"}
      case Tested => {"d"}
      case _ => {}
    ensures WithStatus(FourRequirements(t), t.projectId, s) == ids
  {
  }
}
