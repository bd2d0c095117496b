/** Least-evidence selection for an agent: filter by role, sort, keep the best few, and list
    their citations. */
module EvidenceSelection {
  import opened Common
  import opened Sorting

  datatype Agent =
    | ChiefSecretary | PolicyResearch | LegalReview | BudgetAnalysis | Statistics | PressPr
    | SpeechWriter | SnsManager | PptDesigner | MeetingAssistant | CitizenCommunication

  /** `details` stands for the fields that selection neither reads nor changes. */
  datatype Item = Item(
    id: Id, sourceType: string, score: real, citation: Option<string>, warnings: seq<string>, details: string)

  datatype Package = Package(items: seq<Item>, citations: seq<string>, warnings: seq<string>, details: string)

  function AllowedTypes(agent: Agent): set<string> {
    match agent
    case LegalReview => {"law", "regulation", "ordinance"}
    case BudgetAnalysis => {"budget", "finance"}
    case Statistics => {"statistics", "public_data"}
    case SpeechWriter => {"law", "policy", "statistics", "internal"}
    case PressPr => {"law", "policy", "statistics", "budget"}
    case SnsManager => {"law", "policy", "statistics", "budget"}
    case PptDesigner => {"law", "policy", "statistics", "budget", "minutes"}
    case PolicyResearch => {"policy", "law", "regulation", "ordinance", "minutes", "statistics", "internal"}
    case _ => {}
  }

  predicate PublicFacing(agent: Agent) {
    agent in {SpeechWriter, PressPr, SnsManager, PptDesigner}
  }

  predicate HasCitation(item: Item) {
    item.citation.Some? && item.citation.value != ""
  }

  predicate Permits(agent: Agent, item: Item) {
    && item.sourceType in AllowedTypes(agent)
    && (PublicFacing(agent) ==> HasCitation(item) && "unsupported" !in item.warnings)
  }

  function Permitted(agent: Agent, items: seq<Item>): (r: seq<Item>)
    ensures |r| <= |items|
    ensures forall x :: x in r <==> x in items && Permits(agent, x)
  {
    if items == [] then []
    else
      var n := |items| - 1;
      assert items == items[..n] + [items[n]];
      Permitted(agent, items[..n]) + if Permits(agent, items[n]) then [items[n]] else []
  }

  /** The sort key: best score first, then source type, then identity. */
  predicate ItemLe(a: Item, b: Item) {
    a.score > b.score
    || (a.score == b.score
        && (if a.sourceType == b.sourceType then a.id <= b.id else StringLe(a.sourceType, b.sourceType)))
  }

  lemma ItemOrder()
    ensures TotalPreorder(ItemLe)
  {
    StringOrder();
    hide StringLe;
    forall a, b, c | ItemLe(a, b) && ItemLe(b, c) ensures ItemLe(a, c) {
      assert StringLe(a.sourceType, b.sourceType) && StringLe(b.sourceType, c.sourceType)
             ==> StringLe(a.sourceType, c.sourceType);
    }
  }

  /** `s[:m]`, where a negative bound counts from the end. */
  function Slice<T>(s: seq<T>, m: int): (r: seq<T>)
    ensures |r| == SliceLength(|s|, m) && r <= s
  {
    s[..SliceLength(|s|, m)]
  }

  function SliceLength(n: nat, m: int): (k: nat)
    ensures k <= n
  {
    if m >= 0 then Min(m, n) else Max(0, n + m)
  }

  /** Distinct elements in order of first appearance. */
  function FirstSeen(s: seq<string>): (r: seq<string>)
    ensures forall x :: x in r <==> x in s
  {
    if s == [] then []
    else
      var n := |s| - 1;
      var r := FirstSeen(s[..n]);
      assert s == s[..n] + [s[n]];
      if s[n] in r then r else r + [s[n]]
  }

  function CitationsOf(items: seq<Item>): (r: seq<string>)
    ensures forall c :: c in r <==> exists x :: x in items && HasCitation(x) && x.citation.value == c
  {
    if items == [] then []
    else
      var n := |items| - 1;
      assert items == items[..n] + [items[n]];
      CitationsOf(items[..n]) + if HasCitation(items[n]) then [items[n].citation.value] else []
  }

  const MINIMIZED := "Evidence minimized for agent role"

  function Selected(package: Package, agent: Agent, maxItems: int): Package {
    var kept := Slice(Sort(ItemLe, Permitted(agent, package.items)), maxItems);
    Package(
      kept, FirstSeen(CitationsOf(kept)),
      package.warnings + if |kept| < |package.items| then [MINIMIZED] else [], package.details)
  }

  method Select(package: Package, agent: Agent, maxItems: int) returns (r: Package)
    ensures r == Selected(package, agent, maxItems)
  {
    hide AllowedTypes, Sort, ItemLe, FirstSeen, CitationsOf, PublicFacing, HasCitation;
    var items := [];
    for i := 0 to |package.items|
      invariant items == Permitted(agent, package.items[..i])
    {
      var item := package.items[i];
      PermittedGrows(agent, package.items, i);
      if item.sourceType !in AllowedTypes(agent) {
        continue;
      }
      if PublicFacing(agent) && (!HasCitation(item) || "unsupported" in item.warnings) {
        continue;
      }
      items := items + [item];
    }
    assert package.items[..|package.items|] == package.items;
    var kept := Slice(Sort(ItemLe, items), maxItems);
    var warnings := package.warnings;
    if |kept| < |package.items| {
      warnings := warnings + [MINIMIZED];
    }
    return Package(kept, FirstSeen(CitationsOf(kept)), warnings, package.details);
  }

  lemma PermittedGrows(agent: Agent, items: seq<Item>, i: nat)
    requires i < |items|
    ensures Permitted(agent, items[..i + 1])
            == if Permits(agent, items[i]) then Permitted(agent, items[..i]) + [items[i]] else Permitted(agent, items[..i])
  {
    hide Permits;
    assert items[..i + 1][..i] == items[..i];
  }

  // ---- what is kept

  /** A higher score goes first, then the earlier source type, then the smaller identity. */
  predicate GoesFirst(a: Item, b: Item) {
    && a.score >= b.score
    && (a.score == b.score ==> StringLe(a.sourceType, b.sourceType))
    && (a.score == b.score && a.sourceType == b.sourceType ==> a.id <= b.id)
  }

  lemma OrderedGoesFirst(a: Item, b: Item)
    ensures ItemLe(a, b) ==> GoesFirst(a, b)
  {
    StringOrder();
    hide StringLe;
  }

  lemma SelectionSplits(package: Package, agent: Agent, maxItems: int) returns (rest: seq<Item>)
    ensures var kept, permitted := Selected(package, agent, maxItems).items, Permitted(agent, package.items);
            && multiset(kept) + multiset(rest) == multiset(permitted)
            && |kept| == SliceLength(|permitted|, maxItems)
            && Sorted(ItemLe, kept)
            && (forall x | x in kept :: x in package.items && Permits(agent, x))
            && (forall x, y | x in kept && y in rest :: ItemLe(x, y))
  {
    hide ItemLe, Permits, CitationsOf, FirstSeen;
    var permitted := Permitted(agent, package.items);
    var sorted := Sort(ItemLe, permitted);
    ItemOrder();
    SortSorted(ItemLe, permitted);
    SameElements(permitted, sorted);
    var k := SliceLength(|sorted|, maxItems);
    rest := sorted[k..];
    assert sorted == sorted[..k] + rest;
  }

  /** The kept items are the best ones: permitted, in order, as many as the bound admits,
      and none of the permitted items left out goes before a kept one. */
  lemma SelectionIsBest(package: Package, agent: Agent, maxItems: int) returns (rest: seq<Item>)
    ensures var kept, permitted := Selected(package, agent, maxItems).items, Permitted(agent, package.items);
            && multiset(kept) + multiset(rest) == multiset(permitted)
            && |kept| == (if maxItems >= 0 then Min(maxItems, |permitted|) else Max(0, |permitted| + maxItems))
            && (forall x | x in kept :: x in package.items && Permits(agent, x))
            && (forall i, j | 0 <= i < j < |kept| :: GoesFirst(kept[i], kept[j]))
            && (forall x, y | x in kept && y in rest :: GoesFirst(x, y))
  {
    rest := SelectionSplits(package, agent, maxItems);
    hide ItemLe, Permits, Permitted, Selected, GoesFirst;
    forall a, b ensures ItemLe(a, b) ==> GoesFirst(a, b) {
      OrderedGoesFirst(a, b);
    }
  }

  /** The tables read from the other side: who may see a source type. */
  lemma TypesReachAgents(agent: Agent)
    ensures forall sourceType :: sourceType in AllowedTypes(agent) <==>
              match sourceType
              case "law" => agent in {LegalReview, SpeechWriter, PressPr, SnsManager, PptDesigner, PolicyResearch}
              case "policy" => agent in {SpeechWriter, PressPr, SnsManager, PptDesigner, PolicyResearch}
              case "statistics" => agent in {Statistics, SpeechWriter, PressPr, SnsManager, PptDesigner, PolicyResearch}
              case "budget" => agent in {BudgetAnalysis, PressPr, SnsManager, PptDesigner}
              case "regulation" => agent in {LegalReview, PolicyResearch}
              case "ordinance" => agent in {LegalReview, PolicyResearch}
              case "internal" => agent in {SpeechWriter, PolicyResearch}
              case "minutes" => agent in {PptDesigner, PolicyResearch}
              case "finance" => agent == BudgetAnalysis
              case "public_data" => agent == Statistics
              case _ => false
  {
  }

  /** For the four agents that write for the public an item also needs a citation and no
      unsupported claim; the others see every item of their types. */
  lemma PermitsIff(agent: Agent, x: Item)
    ensures Permits(agent, x) <==>
            && x.sourceType in AllowedTypes(agent)
            && (agent == SpeechWriter || agent == PressPr || agent == SnsManager || agent == PptDesigner ==>
                  x.citation != None && x.citation != Some("") && "unsupported" !in x.warnings)
  {
    hide AllowedTypes;
  }

  /** Everything else about the selected package: one warning when anything was left out. */
  lemma SelectionSaysSo(package: Package, agent: Agent, maxItems: int)
    ensures var r := Selected(package, agent, maxItems);
            && r.details == package.details
            && r.warnings == package.warnings
                 + (if |r.items| == |package.items| then [] else ["Evidence minimized for agent role"])
  {
  }

  predicate UniqueIds(items: seq<Item>) {
    forall i, j | 0 <= i < j < |items| :: items[i].id != items[j].id
  }

  lemma UniqueIdsAreTieFree(items: seq<Item>)
    requires UniqueIds(items)
    ensures TieFree(ItemLe, items)
  {
    StringOrder();
    forall a, b | a in items && b in items && ItemLe(a, b) && ItemLe(b, a) ensures a == b {
      assert a.id == b.id by {
        hide StringLe;
      }
    }
  }

  lemma {:induction false} PermittedCounts(agent: Agent, items: seq<Item>, x: Item)
    ensures multiset(Permitted(agent, items))[x] == if Permits(agent, x) then multiset(items)[x] else 0
  {
    hide Permits;
    if items != [] {
      var n := |items| - 1;
      assert items == items[..n] + [items[n]];
      PermittedCounts(agent, items[..n], x);
    }
  }

  /** Items with unique identities are selected alike in whatever order they arrive. */
  lemma SelectionIgnoresOrder(p: Package, q: Package, agent: Agent, maxItems: int)
    requires multiset(p.items) == multiset(q.items) && UniqueIds(p.items)
    ensures Selected(p, agent, maxItems).items == Selected(q, agent, maxItems).items
    ensures Selected(p, agent, maxItems).citations == Selected(q, agent, maxItems).citations
  {
    var a, b := Permitted(agent, p.items), Permitted(agent, q.items);
    forall x ensures multiset(a)[x] == multiset(b)[x] {
      PermittedCounts(agent, p.items, x);
      PermittedCounts(agent, q.items, x);
    }
    assert multiset(a) == multiset(b);
    UniqueIdsAreTieFree(p.items);
    ItemOrder();
    hide ItemLe, Permits;
    assert TieFree(ItemLe, a);
    PermutationSortsAlike(ItemLe, a, b);
  }

  // ---- citations

  function IndexOf(s: seq<string>, x: string): (i: nat)
    requires x in s
    ensures i < |s| && s[i] == x && x !in s[..i]
  {
    if s[0] == x then 0
    else
      var i := 1 + IndexOf(s[1..], x);
      assert s[..i] == [s[0]] + s[1..][..i - 1];
      i
  }

  lemma {:induction false} FirstSeenIsOrdered(s: seq<string>, i: nat, j: nat)
    requires i < j < |FirstSeen(s)|
    ensures IndexOf(s, FirstSeen(s)[i]) < IndexOf(s, FirstSeen(s)[j])
  {
    var n := |s| - 1;
    var before := FirstSeen(s[..n]);
    var x, y := FirstSeen(s)[i], FirstSeen(s)[j];
    assert x == before[i];
    IndexInPrefix(s, n, x);
    if j < |before| {
      FirstSeenIsOrdered(s[..n], i, j);
      IndexInPrefix(s, n, y);
    } else {
      assert forall k | 0 <= k < n :: s[..n][k] == s[k] && s[k] != y;
    }
  }

  lemma IndexInPrefix(s: seq<string>, n: nat, x: string)
    requires n <= |s| && x in s[..n]
    ensures x in s && IndexOf(s, x) == IndexOf(s[..n], x)
  {
  }

  /** Every citation of a kept item is listed once, in the order first met. */
  lemma CitationsAreExact(package: Package, agent: Agent, maxItems: int)
    ensures var r := Selected(package, agent, maxItems);
            && (forall c :: c in r.citations <==> exists x :: x in r.items && HasCitation(x) && x.citation.value == c)
            && Distinct(r.citations)
            && forall i, j | 0 <= i < j < |r.citations| ::
                 IndexOf(CitationsOf(r.items), r.citations[i]) < IndexOf(CitationsOf(r.items), r.citations[j])
  {
    var all := CitationsOf(Selected(package, agent, maxItems).items);
    forall i, j | 0 <= i < j < |FirstSeen(all)|
      ensures IndexOf(all, FirstSeen(all)[i]) < IndexOf(all, FirstSeen(all)[j])
      ensures FirstSeen(all)[i] != FirstSeen(all)[j]
    {
      FirstSeenIsOrdered(all, i, j);
    }
  }

  // ---- selecting twice

  lemma {:induction false} AllPermitted(agent: Agent, items: seq<Item>)
    requires forall x | x in items :: Permits(agent, x)
    ensures Permitted(agent, items) == items
  {
    hide Permits;
    if items != [] {
      var n := |items| - 1;
      assert items == items[..n] + [items[n]];
      AllPermitted(agent, items[..n]);
    }
  }

  lemma SelectionAgain(package: Package, agent: Agent, maxItems: int)
    ensures var once := Selected(package, agent, maxItems);
            Selected(once, agent, maxItems).items == Slice(once.items, maxItems)
  {
    var once := Selected(package, agent, maxItems);
    var rest := SelectionSplits(package, agent, maxItems);
    hide ItemLe, Permits;
    AllPermitted(agent, once.items);
    SortedIsFixed(ItemLe, once.items);
  }

  /** Selecting again changes nothing, warnings included, exactly when the bound is not
      negative or so negative that nothing is kept at all. */
  lemma SelectionIsIdempotentIff(package: Package, agent: Agent, maxItems: int)
    ensures var once := Selected(package, agent, maxItems);
            Selected(once, agent, maxItems) == once
            <==> maxItems >= 0 || |Permitted(agent, package.items)| <= -maxItems
  {
    hide *;
    var n := |Permitted(agent, package.items)|;
    var once := Selected(package, agent, maxItems);
    var twice := Selected(once, agent, maxItems);
    SelectionAgain(package, agent, maxItems);
    SelectionShape(package, agent, maxItems);
    SelectionShape(once, agent, maxItems);
    SliceTwice(n, maxItems);
    if |twice.items| == |once.items| {
      assert twice.items == once.items;
      assert once.warnings + [] == once.warnings;
    }
  }

  lemma SelectionShape(package: Package, agent: Agent, maxItems: int)
    ensures var r := Selected(package, agent, maxItems);
            && |r.items| == SliceLength(|Permitted(agent, package.items)|, maxItems)
            && r.citations == FirstSeen(CitationsOf(r.items))
            && r.warnings == package.warnings + (if |r.items| < |package.items| then [MINIMIZED] else [])
            && r.details == package.details
  {
  }

  lemma SliceTwice(n: nat, m: int)
    ensures SliceLength(SliceLength(n, m), m) == SliceLength(n, m) <==> m >= 0 || n <= -m
  {
  }
}
