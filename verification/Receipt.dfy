/** The receipt journal of `fs/receipt.rs`: what a journal's records fold to, and what rotation keeps. */
module Receipt {
  import opened Options

  type Id = string

  /** One parsed journal line. Lines that do not parse, have no id or another kind are `Noise`. */
  datatype Record =
    | Begin(id: Id, tool: Option<string>, path: Option<string>, beforeSha256: Option<string>,
            beforeGitHead: Option<string>, atMs: Option<nat>)
    | Settle(id: Id, outcome: Option<string>, afterSha256: Option<string>, afterGitHead: Option<string>,
             atMs: Option<nat>)
    | Noise(bytes: nat)

  datatype Receipt = Receipt(id: Id, tool: string, path: Option<string>,
                             beforeSha256: Option<string>, afterSha256: Option<string>,
                             beforeGitHead: Option<string>, afterGitHead: Option<string>,
                             outcome: Option<string>, beganAtMs: nat, settledAtMs: Option<nat>)

  type Journal = seq<Record>

  function GetOr<T>(o: Option<T>, default: T): T {
    if o.Some? then o.value else default
  }

  predicate Interrupted(r: Receipt) {
    r.outcome.None?
  }

  /** The receipt a begin record opens. */
  function Opened(record: Record): Receipt
    requires record.Begin?
  {
    Receipt(record.id, GetOr(record.tool, ""), record.path, record.beforeSha256, None, record.beforeGitHead, None,
            None, GetOr(record.atMs, 0), None)
  }

  function Settled(r: Receipt, record: Record): Receipt
    requires record.Settle?
  {
    r.(outcome := record.outcome, afterSha256 := record.afterSha256, afterGitHead := record.afterGitHead,
       settledAtMs := Some(GetOr(record.atMs, 0)))
  }

  /** The begin record written for a receipt, by `begin_value`. */
  function BeginValue(r: Receipt): Record {
    Begin(r.id, Some(r.tool), r.path, r.beforeSha256, r.beforeGitHead, Some(r.beganAtMs))
  }

  // ---------------------------------------------------------------- the fold

  /** The ids in the order their begin records appear. */
  function Order(journal: Journal): seq<Id> {
    if journal == [] then [] else
    var front, last := Order(journal[..|journal| - 1]), journal[|journal| - 1];
    if last.Begin? then front + [last.id] else front
  }

  function Receipts(journal: Journal): (m: map<Id, Receipt>)
    ensures forall id :: id in m ==> m[id].id == id
    ensures forall id :: id in m <==> id in Order(journal)
  {
    if journal == [] then map[] else
    var front, last := Receipts(journal[..|journal| - 1]), journal[|journal| - 1];
    match last
    case Begin(id, _, _, _, _, _) => front[id := Opened(last)]
    case Settle(id, _, _, _, _) => if id in front then front[id := Settled(front[id], last)] else front
    case Noise(_) => front
  }

  /** `order.filter_map(remove)`: each id's receipt at the id's first place only. */
  function Collect(order: seq<Id>, receipts: map<Id, Receipt>): seq<Receipt> {
    if order == [] then []
    else if order[0] in receipts then [receipts[order[0]]] + Collect(order[1..], receipts - {order[0]})
    else Collect(order[1..], receipts)
  }

  function All(journal: Journal): seq<Receipt> {
    Collect(Order(journal), Receipts(journal))
  }

  function FilterInterrupted(rs: seq<Receipt>): seq<Receipt> {
    if rs == [] then []
    else if Interrupted(rs[0]) then [rs[0]] + FilterInterrupted(rs[1..])
    else FilterInterrupted(rs[1..])
  }

  /** What the journal reports as interrupted, oldest first. */
  function Unsettled(journal: Journal): seq<Receipt> {
    FilterInterrupted(All(journal))
  }

  /** `all_from_path`: two loops, one over the lines and one over the order. */
  method AllFromPath(journal: Journal) returns (result: seq<Receipt>)
    ensures result == All(journal)
  {
    var order: seq<Id>, receipts: map<Id, Receipt> := [], map[];
    assert journal[..0] == [];
    for i := 0 to |journal|
      invariant order == Order(journal[..i]) && receipts == Receipts(journal[..i])
    {
      assert journal[..i + 1][..i] == journal[..i];
      match journal[i]
      case Begin(id, _, _, _, _, _) =>
        order := order + [id];
        receipts := receipts[id := Opened(journal[i])];
      case Settle(id, _, _, _, _) =>
        if id in receipts {
          receipts := receipts[id := Settled(receipts[id], journal[i])];
        }
      case Noise(_) =>
    }
    assert journal[..|journal|] == journal;
    result := [];
    for i := 0 to |order|
      invariant result + Collect(order[i..], receipts) == All(journal)
    {
      assert order[i..][1..] == order[i + 1..];
      if order[i] in receipts {
        result := result + [receipts[order[i]]];
        receipts := receipts - {order[i]};
      }
    }
  }

  // ---------------------------------------------------------------- distinct ids

  ghost predicate DistinctIds(rs: seq<Receipt>) {
    forall i, j :: 0 <= i < j < |rs| ==> rs[i].id != rs[j].id
  }

  lemma {:induction false} CollectIsDistinct(order: seq<Id>, receipts: map<Id, Receipt>)
    requires forall id :: id in receipts ==> receipts[id].id == id
    ensures DistinctIds(Collect(order, receipts))
    ensures forall r :: r in Collect(order, receipts) ==> r.id in receipts && r == receipts[r.id]
  {
    if order != [] {
      if order[0] in receipts {
        CollectIsDistinct(order[1..], receipts - {order[0]});
      } else {
        CollectIsDistinct(order[1..], receipts);
      }
    }
  }

  lemma {:induction false} FilterIsDistinct(rs: seq<Receipt>)
    requires DistinctIds(rs)
    ensures DistinctIds(FilterInterrupted(rs))
    ensures forall r :: r in FilterInterrupted(rs) <==> r in rs && Interrupted(r)
  {
    if rs != [] {
      FilterIsDistinct(rs[1..]);
      assert forall r :: r in rs <==> r == rs[0] || r in rs[1..];
      assert forall r :: r in rs[1..] ==> r.id != rs[0].id;
    }
  }

  lemma UnsettledIsDistinct(journal: Journal)
    ensures DistinctIds(Unsettled(journal))
    ensures forall r :: r in Unsettled(journal) ==> Interrupted(r)
  {
    CollectIsDistinct(Order(journal), Receipts(journal));
    FilterIsDistinct(All(journal));
  }

  // ---------------------------------------------------------------- rotation

  function BeginValues(rs: seq<Receipt>): Journal {
    if rs == [] then [] else BeginValues(rs[..|rs| - 1]) + [BeginValue(rs[|rs| - 1])]
  }

  /** `rotate`: one begin record per interrupted receipt, nothing else. */
  function Rotated(journal: Journal): Journal {
    BeginValues(Unsettled(journal))
  }

  /** A receipt as its begin record alone tells it. */
  function Bare(r: Receipt): Receipt {
    r.(afterSha256 := None, afterGitHead := None, outcome := None, settledAtMs := None)
  }

  function BareAll(rs: seq<Receipt>): seq<Receipt> {
    seq(|rs|, i requires 0 <= i < |rs| => Bare(rs[i]))
  }

  lemma BeginIsFolded(journal: Journal, r: Receipt)
    ensures Order(journal + [BeginValue(r)]) == Order(journal) + [r.id]
    ensures Receipts(journal + [BeginValue(r)]) == Receipts(journal)[r.id := Bare(r)]
  {
    var longer := journal + [BeginValue(r)];
    assert longer[..|longer| - 1] == journal;
  }

  ghost predicate Recorded(order: seq<Id>, receipts: map<Id, Receipt>, rs: seq<Receipt>) {
    && |order| == |rs| && (forall i :: 0 <= i < |rs| ==> order[i] == rs[i].id)
    && (forall i :: 0 <= i < |rs| ==> rs[i].id in receipts && receipts[rs[i].id] == Bare(rs[i]))
  }

  lemma OneMoreRecorded(order: seq<Id>, receipts: map<Id, Receipt>, rs: seq<Receipt>, r: Receipt)
    requires Recorded(order, receipts, rs) && forall i :: 0 <= i < |rs| ==> rs[i].id != r.id
    ensures Recorded(order + [r.id], receipts[r.id := Bare(r)], rs + [r])
  {
  }

  lemma {:induction false} FoldOfBegins(rs: seq<Receipt>)
    requires DistinctIds(rs)
    ensures Recorded(Order(BeginValues(rs)), Receipts(BeginValues(rs)), rs)
  {
    if rs != [] {
      var front, last := rs[..|rs| - 1], rs[|rs| - 1];
      FoldOfBegins(front);
      BeginIsFolded(BeginValues(front), last);
      OneMoreRecorded(Order(BeginValues(front)), Receipts(BeginValues(front)), front, last);
      assert front + [last] == rs;
    }
  }

  lemma {:induction false} CollectDistinct(order: seq<Id>, receipts: map<Id, Receipt>, rs: seq<Receipt>)
    requires |order| == |rs|
    requires forall i :: 0 <= i < |rs| ==> order[i] == rs[i].id && order[i] in receipts && receipts[order[i]] == rs[i]
    requires DistinctIds(rs)
    ensures Collect(order, receipts) == rs
  {
    if order != [] {
      forall i | 0 <= i < |rs[1..]| ensures order[1..][i] == rs[1..][i].id && order[1..][i] in receipts - {order[0]} {
        assert rs[i + 1].id != rs[0].id;
      }
      CollectDistinct(order[1..], receipts - {order[0]}, rs[1..]);
    }
  }

  lemma AllOfBegins(rs: seq<Receipt>)
    requires DistinctIds(rs)
    ensures All(BeginValues(rs)) == BareAll(rs)
  {
    FoldOfBegins(rs);
    CollectDistinct(Order(BeginValues(rs)), Receipts(BeginValues(rs)), BareAll(rs));
  }

  lemma {:induction false} FilterOfBare(rs: seq<Receipt>)
    requires forall i :: 0 <= i < |rs| ==> Interrupted(rs[i])
    ensures FilterInterrupted(rs) == rs
  {
    if rs != [] {
      FilterOfBare(rs[1..]);
    }
  }

  /** Rotation keeps exactly the interrupted receipts, in order, each as its begin record tells it. */
  lemma RotationKeeps(journal: Journal)
    ensures All(Rotated(journal)) == BareAll(Unsettled(journal))
    ensures Unsettled(Rotated(journal)) == BareAll(Unsettled(journal))
  {
    UnsettledIsDistinct(journal);
    AllOfBegins(Unsettled(journal));
    FilterOfBare(BareAll(Unsettled(journal)));
  }

  /** No settle record has touched this receipt. */
  predicate Untouched(r: Receipt) {
    r.afterSha256.None? && r.afterGitHead.None? && r.settledAtMs.None?
  }

  lemma BareIsSame(rs: seq<Receipt>)
    requires forall r :: r in rs ==> Interrupted(r)
    ensures BareAll(rs) == rs <==> forall r :: r in rs ==> Untouched(r)
  {
    if BareAll(rs) == rs {
      forall i | 0 <= i < |rs| ensures Untouched(rs[i]) {
        assert BareAll(rs)[i] == Bare(rs[i]);
      }
    } else {
      var i :| 0 <= i < |rs| && Bare(rs[i]) != rs[i];
      assert rs[i] in rs;
    }
  }

  predicate Names(record: Record, id: Id) {
    !record.Noise? && record.id == id
  }

  /** Record `j` settles a receipt that was begun before it, and no later record names that receipt. */
  ghost predicate LastWord(journal: Journal, j: nat) {
    && j < |journal| && journal[j].Settle?
    && (exists i :: 0 <= i < j && journal[i].Begin? && journal[i].id == journal[j].id)
    && (forall k :: j < k < |journal| ==> !Names(journal[k], journal[j].id))
  }

  lemma {:induction false} BegunIsInOrder(journal: Journal, i: nat)
    requires i < |journal| && journal[i].Begin?
    ensures journal[i].id in Order(journal)
  {
    if i < |journal| - 1 {
      BegunIsInOrder(journal[..|journal| - 1], i);
    }
  }

  /** The last word on a receipt is what it says. */
  lemma {:induction false} LastWordStands(journal: Journal, j: nat)
    requires LastWord(journal, j)
    ensures var id := journal[j].id;
            id in Receipts(journal) && Receipts(journal)[id].settledAtMs.Some?
              && Receipts(journal)[id].outcome == journal[j].outcome
  {
    var front, id := journal[..|journal| - 1], journal[j].id;
    if j == |front| {
      var i :| 0 <= i < j && journal[i].Begin? && journal[i].id == id;
      BegunIsInOrder(front, i);
    } else {
      assert !Names(journal[|front|], id);
      var i :| 0 <= i < j && journal[i].Begin? && journal[i].id == id;
      assert front[i] == journal[i] && front[j] == journal[j];
      LastWordStands(front, j);
    }
  }

  lemma LastWordGrows(front: Journal, record: Record, j: nat)
    requires LastWord(front, j) && !Names(record, front[j].id)
    ensures LastWord(front + [record], j)
  {
    var journal := front + [record];
    var i :| 0 <= i < j && front[i].Begin? && front[i].id == front[j].id;
    assert journal[i] == front[i] && journal[j] == front[j];
    assert forall k :: j < k < |front| ==> journal[k] == front[k];
  }

  lemma {:induction false} InOrderWasBegun(journal: Journal, id: Id)
    requires id in Order(journal)
    ensures exists i :: 0 <= i < |journal| && journal[i].Begin? && journal[i].id == id
  {
    var front := journal[..|journal| - 1];
    if id in Order(front) {
      InOrderWasBegun(front, id);
      var i :| 0 <= i < |front| && front[i].Begin? && front[i].id == id;
      assert journal[i] == front[i];
    }
  }

  /** A receipt that a settle record touched has a last word. */
  lemma {:induction false} TouchedHasLastWord(journal: Journal, id: Id)
    requires id in Receipts(journal) && !Untouched(Receipts(journal)[id])
    ensures exists j: nat :: LastWord(journal, j) && journal[j].id == id
  {
    var front, last := journal[..|journal| - 1], journal[|journal| - 1];
    assert journal == front + [last];
    if Names(last, id) {
      assert last.Settle? && id in Receipts(front);
      InOrderWasBegun(front, id);
      var i :| 0 <= i < |front| && front[i].Begin? && front[i].id == id;
      assert journal[i] == front[i] && LastWord(journal, |front|);
    } else {
      TouchedHasLastWord(front, id);
      var j: nat :| LastWord(front, j) && front[j].id == id;
      LastWordGrows(front, last, j);
    }
  }

  lemma {:induction false} CollectHasAll(order: seq<Id>, receipts: map<Id, Receipt>, id: Id)
    requires id in order && id in receipts
    ensures receipts[id] in Collect(order, receipts)
  {
    if order[0] in receipts {
      if order[0] != id {
        CollectHasAll(order[1..], receipts - {order[0]}, id);
      }
    } else {
      CollectHasAll(order[1..], receipts, id);
    }
  }

  /** The interrupted receipts are those the fold leaves without an outcome. */
  lemma UnsettledAre(journal: Journal, r: Receipt)
    ensures r in Unsettled(journal) <==> r.id in Receipts(journal) && r == Receipts(journal)[r.id] && Interrupted(r)
  {
    CollectIsDistinct(Order(journal), Receipts(journal));
    FilterIsDistinct(All(journal));
    if r.id in Receipts(journal) {
      CollectHasAll(Order(journal), Receipts(journal), r.id);
    }
  }

  lemma OutcomelessTouches(journal: Journal, j: nat)
    requires LastWord(journal, j) && journal[j].outcome.None?
    ensures exists r :: r in Unsettled(journal) && !Untouched(r)
  {
    LastWordStands(journal, j);
    UnsettledAre(journal, Receipts(journal)[journal[j].id]);
  }

  lemma TouchedIsOutcomeless(journal: Journal, r: Receipt)
    requires r in Unsettled(journal) && !Untouched(r)
    ensures exists j: nat :: LastWord(journal, j) && journal[j].outcome.None?
  {
    UnsettledAre(journal, r);
    TouchedHasLastWord(journal, r.id);
    var j: nat :| LastWord(journal, j) && journal[j].id == r.id;
    LastWordStands(journal, j);
  }

  /** Folding a rotated journal gives the interrupted receipts of the old fold unchanged exactly when every
      settle record that has the last word on a receipt names an outcome. */
  lemma RotationExact(journal: Journal)
    ensures All(Rotated(journal)) == Unsettled(journal) <==>
            forall j: nat :: LastWord(journal, j) ==> journal[j].outcome.Some?
  {
    RotationKeeps(journal);
    UnsettledIsDistinct(journal);
    BareIsSame(Unsettled(journal));
    if j: nat :| LastWord(journal, j) && journal[j].outcome.None? {
      OutcomelessTouches(journal, j);
    } else if r :| r in Unsettled(journal) && !Untouched(r) {
      TouchedIsOutcomeless(journal, r);
    }
  }

  /** A settle record without an outcome, which nothing in the program writes, is lost by rotation. */
  lemma RotationForgets(id: Id, digest: string)
    ensures var journal := [Begin(id, None, None, None, None, None), Settle(id, None, Some(digest), None, None)];
            All(Rotated(journal)) != Unsettled(journal)
  {
    var journal := [Begin(id, None, None, None, None, None), Settle(id, None, Some(digest), None, None)];
    assert journal[0].Begin? && LastWord(journal, 1);
    RotationExact(journal);
  }

  lemma RotationKeepsBegins(journal: Journal)
    ensures DistinctBegins(Rotated(journal))
    ensures forall id :: id in Order(Rotated(journal)) ==> id in Order(journal)
  {
    var open := Unsettled(journal);
    UnsettledIsDistinct(journal);
    FoldOfBegins(open);
    forall id | id in Order(Rotated(journal)) ensures id in Order(journal) {
      var i :| 0 <= i < |open| && id == Order(Rotated(journal))[i];
      UnsettledAre(journal, open[i]);
    }
  }

  // ---------------------------------------------------------------- evidence

  /** Every begin record has an id of its own. */
  ghost predicate DistinctBegins(journal: Journal) {
    forall i, j :: 0 <= i < j < |Order(journal)| ==> Order(journal)[i] != Order(journal)[j]
  }

  /** Every settle record names its outcome, as `settle_value` writes it. */
  ghost predicate OutcomesNamed(journal: Journal) {
    forall record :: record in journal && record.Settle? ==> record.outcome.Some?
  }

  function WithoutId(rs: seq<Receipt>, id: Id): seq<Receipt> {
    if rs == [] then []
    else if rs[0].id == id then WithoutId(rs[1..], id)
    else [rs[0]] + WithoutId(rs[1..], id)
  }

  function EvidenceStep(open: seq<Receipt>, record: Record): seq<Receipt> {
    match record
    case Begin(_, _, _, _, _, _) => open + [Opened(record)]
    case Settle(id, _, _, _, _) => WithoutId(open, id)
    case Noise(_) => open
  }

  /** What was begun and not settled since, with its original evidence, in the order it was begun. */
  function Evidence(journal: Journal): seq<Receipt> {
    if journal == [] then [] else EvidenceStep(Evidence(journal[..|journal| - 1]), journal[|journal| - 1])
  }

  lemma {:induction false} AllPointwise(order: seq<Id>, receipts: map<Id, Receipt>)
    requires forall i, j :: 0 <= i < j < |order| ==> order[i] != order[j]
    requires forall i :: 0 <= i < |order| ==> order[i] in receipts
    ensures |Collect(order, receipts)| == |order|
    ensures forall i :: 0 <= i < |order| ==> Collect(order, receipts)[i] == receipts[order[i]]
  {
    if order != [] {
      forall i | 0 <= i < |order[1..]| ensures order[1..][i] in receipts - {order[0]} {
        assert order[i + 1] != order[0];
      }
      AllPointwise(order[1..], receipts - {order[0]});
      forall i | 0 <= i < |order| ensures Collect(order, receipts)[i] == receipts[order[i]] {
        if i > 0 {
          assert order[1..][i - 1] == order[i];
        }
      }
    }
  }

  lemma {:induction false} FilterConcat(a: seq<Receipt>, b: seq<Receipt>)
    ensures FilterInterrupted(a + b) == FilterInterrupted(a) + FilterInterrupted(b)
  {
    if a == [] {
      assert a + b == b;
    } else {
      FilterConcat(a[1..], b);
      assert (a + b)[1..] == a[1..] + b;
    }
  }

  /** Settling one receipt with an outcome drops it from the interrupted ones and leaves the rest. */
  lemma {:induction false} FilterSettled(before: seq<Receipt>, after: seq<Receipt>, id: Id)
    requires |before| == |after|
    requires forall i :: 0 <= i < |before| ==>
                           if before[i].id == id then !Interrupted(after[i]) else after[i] == before[i]
    ensures FilterInterrupted(after) == WithoutId(FilterInterrupted(before), id)
  {
    if before != [] {
      assert forall i :: 0 <= i < |before[1..]| ==> before[1..][i] == before[i + 1] && after[1..][i] == after[i + 1];
      FilterSettled(before[1..], after[1..], id);
      var rest := FilterInterrupted(before[1..]);
      assert ([before[0]] + rest)[1..] == rest;
    }
  }

  lemma OrderFront(journal: Journal)
    requires journal != [] && DistinctBegins(journal)
    ensures DistinctBegins(journal[..|journal| - 1])
  {
    var front := Order(journal[..|journal| - 1]);
    assert forall i :: 0 <= i < |front| ==> front[i] == Order(journal)[i];
  }

  lemma {:induction false} WithoutAbsent(rs: seq<Receipt>, id: Id)
    requires forall r :: r in rs ==> r.id != id
    ensures WithoutId(rs, id) == rs
  {
    if rs != [] {
      assert rs[0] in rs;
      WithoutAbsent(rs[1..], id);
    }
  }

  /** The fold of a journal without repeated begins: one receipt per begin, in order. */
  lemma AllIs(journal: Journal)
    requires DistinctBegins(journal)
    ensures |All(journal)| == |Order(journal)|
    ensures forall i :: 0 <= i < |Order(journal)| ==> All(journal)[i] == Receipts(journal)[Order(journal)[i]]
  {
    AllPointwise(Order(journal), Receipts(journal));
  }

  lemma OneMoreOrder(journal: Journal, record: Record)
    ensures Order(journal + [record]) == Order(journal) + if record.Begin? then [record.id] else []
  {
    assert (journal + [record])[..|journal|] == journal;
  }

  lemma NewBegin(front: Journal, record: Record)
    requires record.Begin? && DistinctBegins(front + [record])
    ensures DistinctBegins(front) && record.id !in Order(front)
  {
    OneMoreOrder(front, record);
    var order := Order(front + [record]);
    forall i | 0 <= i < |Order(front)| ensures Order(front)[i] != record.id {
      assert order[i] == Order(front)[i] && order[|Order(front)|] == record.id;
    }
    assert forall i :: 0 <= i < |Order(front)| ==> order[i] == Order(front)[i];
  }

  lemma BeginAppends(front: Journal, record: Record)
    requires record.Begin? && DistinctBegins(front + [record])
    ensures DistinctBegins(front) && Unsettled(front + [record]) == Unsettled(front) + [Opened(record)]
  {
    var journal := front + [record];
    OneMoreOrder(front, record);
    NewBegin(front, record);
    AllIs(front);
    AllIs(journal);
    assert journal[..|front|] == front;
    assert All(journal) == All(front) + [Opened(record)];
    FilterConcat(All(front), [Opened(record)]);
    FilterOfBare([Opened(record)]);
  }

  lemma SettleRemoves(front: Journal, record: Record)
    requires record.Settle? && record.outcome.Some? && DistinctBegins(front + [record])
    ensures DistinctBegins(front) && Unsettled(front + [record]) == WithoutId(Unsettled(front), record.id)
  {
    var journal := front + [record];
    assert journal[..|front|] == front;
    OrderFront(journal);
    AllIs(front);
    AllIs(journal);
    FilterSettled(All(front), All(journal), record.id);
  }

  lemma UnsettledStep(front: Journal, record: Record)
    requires DistinctBegins(front + [record]) && (record.Settle? ==> record.outcome.Some?)
    ensures DistinctBegins(front) && Unsettled(front + [record]) == EvidenceStep(Unsettled(front), record)
  {
    assert (front + [record])[..|front|] == front;
    OrderFront(front + [record]);
    match record
    case Begin(_, _, _, _, _, _) => BeginAppends(front, record);
    case Settle(_, _, _, _, _) => SettleRemoves(front, record);
    case Noise(_) =>
  }

  /** A journal whose begins are distinct and whose settles name outcomes reports exactly its evidence. */
  lemma {:induction false} UnsettledIsEvidence(journal: Journal)
    requires DistinctBegins(journal) && OutcomesNamed(journal)
    ensures Unsettled(journal) == Evidence(journal)
  {
    if journal != [] {
      var front, last := journal[..|journal| - 1], journal[|journal| - 1];
      assert journal == front + [last] && last in journal;
      UnsettledStep(front, last);
      UnsettledIsEvidence(front);
    }
  }

  lemma {:induction false} WithoutIdKeeps(rs: seq<Receipt>, id: Id, r: Receipt)
    ensures r in WithoutId(rs, id) <==> r in rs && r.id != id
  {
    if rs != [] {
      WithoutIdKeeps(rs[1..], id, r);
    }
  }

  /** Record `k` opened this receipt and no later settle names its id. */
  ghost predicate OpenSince(journal: Journal, k: nat, r: Receipt) {
    && k < |journal| && journal[k].Begin? && Opened(journal[k]) == r
    && forall j :: k < j < |journal| && journal[j].Settle? ==> journal[j].id != r.id
  }

  lemma OpenSinceStep(front: Journal, record: Record, r: Receipt, k: nat)
    ensures OpenSince(front + [record], k, r) <==>
            if k == |front| then record.Begin? && Opened(record) == r
            else OpenSince(front, k, r) && (record.Settle? ==> record.id != r.id)
  {
    var journal := front + [record];
    assert forall j :: 0 <= j < |front| ==> journal[j] == front[j];
    assert journal[|front|] == record;
  }

  /** A receipt is evidence exactly when a begin record opened it and no later settle names its id. */
  lemma {:induction false} EvidenceMeans(journal: Journal, r: Receipt)
    ensures r in Evidence(journal) <==> exists k :: OpenSince(journal, k, r)
  {
    if journal != [] {
      var front, last := journal[..|journal| - 1], journal[|journal| - 1];
      assert journal == front + [last];
      EvidenceMeans(front, r);
      WithoutIdKeeps(Evidence(front), if last.Settle? then last.id else "", r);
      OpenSinceStep(front, last, r, |front|);
      forall k: nat ensures OpenSince(journal, k, r) <==>
            if k == |front| then last.Begin? && Opened(last) == r
            else OpenSince(front, k, r) && (last.Settle? ==> last.id != r.id) {
        OpenSinceStep(front, last, r, k);
      }
    }
  }
}
