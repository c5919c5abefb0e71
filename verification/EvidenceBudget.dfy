/** The rendered list and the candidate list: within their caps, and with nothing left out that would still fit. */
module EvidenceBudget {
  import opened Common
  import opened Evidence
  import opened EvidenceGroups

  // --- The rendered list -----------------------------------------------------------------------

  function Used(items: seq<Shown>, x: Text): nat {
    if items == [] then 0 else Used(items[..|items| - 1], x) + x.shownSize(items[|items| - 1])
  }

  predicate HasRoom(rendered: seq<Shown>, item: Shown, x: Text) {
    |rendered| < MAX_RENDERED && Used(rendered, x) + x.shownSize(item) <= MAX_RENDERED_BYTES
  }

  function Rendered(items: seq<Shown>, x: Text): seq<Shown> {
    if items == [] then []
    else
      var front, item := Rendered(items[..|items| - 1], x), items[|items| - 1];
      if HasRoom(front, item, x) then front + [item] else front
  }

  lemma UsedMore(items: seq<Shown>, item: Shown, x: Text)
    ensures Used(items + [item], x) == Used(items, x) + x.shownSize(item)
  {
    assert (items + [item])[..|items|] == items;
  }

  method RenderEvidence(items: seq<Shown>, x: Text) returns (rendered: seq<Shown>)
    ensures rendered == Rendered(items, x)
  {
    rendered := [];
    var used := 0;
    for i := 0 to |items|
      invariant rendered == Rendered(items[..i], x) && used == Used(rendered, x)
    {
      assert items[..i + 1][..i] == items[..i];
      var encoded := x.shownSize(items[i]);
      if |rendered| >= MAX_RENDERED || used + encoded > MAX_RENDERED_BYTES { continue; }
      UsedMore(rendered, items[i], x);
      rendered := rendered + [items[i]];
      used := used + encoded;
    }
    assert items[..|items|] == items;
  }

  /** The sizes of the items, added up. */
  function Total(items: seq<Shown>, x: Text): nat {
    if items == [] then 0 else x.shownSize(items[0]) + Total(items[1..], x)
  }

  lemma {:induction false} UsedIsTotal(items: seq<Shown>, x: Text)
    ensures Used(items, x) == Total(items, x)
    decreases |items|
  {
    if items != [] {
      UsedIsTotal(items[1..], x);
      UsedFirst(items, x);
    }
  }

  lemma {:induction false} UsedFirst(items: seq<Shown>, x: Text)
    requires items != []
    ensures Used(items, x) == x.shownSize(items[0]) + Used(items[1..], x)
    decreases |items|
  {
    if |items| > 1 {
      var n := |items| - 1;
      UsedFirst(items[..n], x);
      assert items[..n][1..] == items[1..][..n - 1];
    } else {
      assert items[..0] == [] && items[1..] == [];
    }
  }

  lemma {:induction false} RenderedFits(items: seq<Shown>, x: Text)
    ensures var r := Rendered(items, x);
            && |r| <= MAX_RENDERED && Used(r, x) <= MAX_RENDERED_BYTES
            && multiset(r) <= multiset(items)
            && forall item :: item in multiset(items) - multiset(r) ==> !HasRoom(r, item, x)
    decreases |items|
  {
    if items != [] {
      var n := |items| - 1;
      var front, item := Rendered(items[..n], x), items[n];
      RenderedFits(items[..n], x);
      assert items == items[..n] + [item];
      assert multiset(items) == multiset(items[..n]) + multiset{item};
      UsedMore(front, item, x);
      if HasRoom(front, item, x) {
        var r := front + [item];
        assert multiset(r) == multiset(front) + multiset{item};
        assert multiset(items) - multiset(r) == multiset(items[..n]) - multiset(front);
      }
    }
  }

  /** At most 50 of the items and 16000 bytes; no occurrence left out would still fit at the end. */
  lemma RenderedMaximal(items: seq<Shown>, x: Text)
    ensures var r := Rendered(items, x);
            && |r| <= 50 && Total(r, x) <= 16_000
            && multiset(r) <= multiset(items)
            && forall item :: item in multiset(items) - multiset(r) ==>
                 |r| == 50 || Total(r, x) + x.shownSize(item) > 16_000
  {
    RenderedFits(items, x);
    UsedIsTotal(Rendered(items, x), x);
    hide Rendered, Used, Total;
  }

  /** What is rendered are the items at the rising positions `at`. */
  lemma {:induction false} RenderedInOrder(items: seq<Shown>, x: Text) returns (at: seq<nat>)
    ensures |at| == |Rendered(items, x)|
    ensures forall i :: 0 <= i < |at| ==> at[i] < |items| && Rendered(items, x)[i] == items[at[i]]
    ensures forall i, j :: 0 <= i < j < |at| ==> at[i] < at[j]
    decreases |items|
  {
    hide HasRoom;
    at := [];
    if items != [] {
      var n := |items| - 1;
      at := RenderedInOrder(items[..n], x);
      if HasRoom(Rendered(items[..n], x), items[n], x) { at := at + [n]; }
    }
  }

  // --- The candidates --------------------------------------------------------------------------

  /** The JSON size of the candidate payload: brackets, items, and a separator of two between items. */
  function Payload(items: seq<Observation>, x: Text): nat {
    if items == [] then 2
    else Payload(items[..|items| - 1], x) + x.candidateSize(items[|items| - 1]) + if |items| == 1 then 0 else 2
  }

  lemma PayloadMore(items: seq<Observation>, o: Observation, x: Text)
    ensures Payload(items + [o], x) == Payload(items, x) + x.candidateSize(o) + if items == [] then 0 else 2
  {
    assert (items + [o])[..|items|] == items;
  }

  function ById(os: seq<Observation>): map<string, Observation> {
    if os == [] then map[] else ById(os[..|os| - 1])[os[|os| - 1].id := os[|os| - 1]]
  }

  predicate Taken(selected: seq<Observation>, id: string) { exists o :: o in selected && o.id == id }

  predicate Admits(selected: seq<Observation>, o: Observation, x: Text) {
    |selected| < MAX_CANDIDATES && Payload(selected + [o], x) <= MAX_CANDIDATE_BYTES
  }

  /** The targets of updates, newest first, and then the observations, newest first. */
  function Priority(os: seq<Observation>, updates: seq<Update>): seq<string> {
    seq(|updates|, i requires 0 <= i < |updates| => updates[|updates| - 1 - i].revision.target)
    + seq(|os|, i requires 0 <= i < |os| => os[|os| - 1 - i].id)
  }

  function Selected(ids: seq<string>, byId: map<string, Observation>, x: Text): seq<Observation> {
    if ids == [] then []
    else
      var front, id := Selected(ids[..|ids| - 1], byId, x), ids[|ids| - 1];
      if id in byId && !Taken(front, id) && Admits(front, byId[id], x) then front + [byId[id]] else front
  }

  method BoundedCandidates(os: seq<Observation>, updates: seq<Update>, x: Text) returns (selected: seq<Observation>)
    ensures selected == Selected(Priority(os, updates), ById(os), x)
  {
    hide Admits;
    var byId: map<string, Observation> := map[];
    for i := 0 to |os|
      invariant byId == ById(os[..i])
    {
      assert os[..i + 1][..i] == os[..i];
      byId := byId[os[i].id := os[i]];
    }
    assert os[..|os|] == os;
    var ids := Priority(os, updates);
    selected := [];
    var taken: set<string> := {};
    for i := 0 to |ids|
      invariant selected == Selected(ids[..i], byId, x)
      invariant forall id :: id in taken <==> Taken(selected, id)
    {
      assert ids[..i + 1][..i] == ids[..i];
      if ids[i] !in byId || ids[i] in taken { continue; }
      var item := byId[ids[i]];
      AdmitsMeans(selected, item, x);
      var trial := selected + [item];
      if |trial| > MAX_CANDIDATES || Payload(trial, x) > MAX_CANDIDATE_BYTES { continue; }
      ByIdFinds(os, ids[i]);
      TakenMore(selected, item);
      selected := trial;
      taken := taken + {ids[i]};
    }
    assert ids[..|ids|] == ids;
  }

  lemma AdmitsMeans(selected: seq<Observation>, o: Observation, x: Text)
    ensures Admits(selected, o, x)
            <==> |selected + [o]| <= MAX_CANDIDATES && Payload(selected + [o], x) <= MAX_CANDIDATE_BYTES
  {
  }

  lemma TakenMore(selected: seq<Observation>, o: Observation)
    ensures forall id :: Taken(selected + [o], id) <==> Taken(selected, id) || id == o.id
  {
    assert o in selected + [o];
    forall id ensures Taken(selected + [o], id) <==> Taken(selected, id) || id == o.id {
      if Taken(selected, id) {
        var p :| p in selected && p.id == id;
        assert p in selected + [o];
      }
    }
  }

  lemma {:induction false} ByIdFinds(os: seq<Observation>, id: string)
    ensures id in ById(os) <==> exists o :: o in os && o.id == id
    ensures id in ById(os) ==> ById(os)[id] in os && ById(os)[id].id == id
    decreases |os|
  {
    if os != [] {
      var n := |os| - 1;
      assert os == os[..n] + [os[n]];
      ByIdFinds(os[..n], id);
      if id in ById(os[..n]) { assert ById(os[..n])[id] in os; }
      if exists o :: o in os[..n] && o.id == id {
        var o :| o in os[..n] && o.id == id;
        assert o in os;
      }
    }
  }

  ghost predicate Bounded(selected: seq<Observation>, x: Text) {
    && |selected| <= MAX_CANDIDATES && Payload(selected, x) <= MAX_CANDIDATE_BYTES
    && forall i, j :: 0 <= i < j < |selected| ==> selected[i].id != selected[j].id
  }

  lemma StaysOut(front: seq<Observation>, item: Observation, o: Observation, x: Text)
    requires !Admits(front, o, x)
    ensures !Admits(front + [item], o, x)
  {
    PayloadMore(front, item, x);
    PayloadMore(front, o, x);
    PayloadMore(front + [item], o, x);
  }

  /** The JSON size of the payload: brackets, the items, and a separator of two between neighbours. */
  function JsonSize(items: seq<Observation>, x: Text): nat {
    if items == [] then 2 else 2 + Sizes(items, x) + 2 * (|items| - 1)
  }

  function Sizes(items: seq<Observation>, x: Text): nat {
    if items == [] then 0 else x.candidateSize(items[0]) + Sizes(items[1..], x)
  }

  lemma {:induction false} SizesMore(items: seq<Observation>, o: Observation, x: Text)
    ensures Sizes(items + [o], x) == Sizes(items, x) + x.candidateSize(o)
    decreases |items|
  {
    if items == [] {
      assert [o][1..] == [] && items + [o] == [o];
    } else {
      assert (items + [o])[1..] == items[1..] + [o];
      SizesMore(items[1..], o, x);
    }
  }

  lemma {:induction false} PayloadIsSize(items: seq<Observation>, x: Text)
    ensures Payload(items, x) == JsonSize(items, x)
    decreases |items|
  {
    if items != [] {
      var n := |items| - 1;
      PayloadIsSize(items[..n], x);
      SizesMore(items[..n], items[n], x);
      assert items == items[..n] + [items[n]];
    }
  }

  lemma {:induction false} SelectedFits(ids: seq<string>, byId: map<string, Observation>, x: Text)
    requires forall id :: id in byId ==> byId[id].id == id
    ensures var r := Selected(ids, byId, x);
            && Bounded(r, x)
            && (forall o :: o in r ==> o.id in byId && o == byId[o.id] && o.id in ids)
            && forall id :: id in ids && id in byId ==> byId[id] in r || !Admits(r, byId[id], x)
    decreases |ids|
  {
    hide Admits, Payload;
    if ids == [] {
      NothingSelected(x);
    } else {
      var n := |ids| - 1;
      var id := ids[n];
      var front := Selected(ids[..n], byId, x);
      assert ids == ids[..n] + [id];
      SelectedFits(ids[..n], byId, x);
      if id in byId {
        var item := byId[id];
        if Taken(front, id) {
          var o :| o in front && o.id == id;
          assert o == item;
        } else if Admits(front, item, x) {
          AdmitsMeans(front, item, x);
          forall other | other in ids && other in byId
            ensures byId[other] in front + [item] || !Admits(front + [item], byId[other], x)
          {
            if other in ids[..n] && !Admits(front, byId[other], x) { StaysOut(front, item, byId[other], x); }
          }
          forall i, j | 0 <= i < j < |front| + 1 ensures (front + [item])[i].id != (front + [item])[j].id {
            assert (front + [item])[i] in front;
          }
        }
      }
    }
  }

  /** At most 64 distinct observed candidates and 24000 bytes; none left out would still fit at the end. */
  lemma SelectedMaximal(ids: seq<string>, byId: map<string, Observation>, x: Text)
    requires forall id :: id in byId ==> byId[id].id == id
    ensures var r := Selected(ids, byId, x);
            && |r| <= 64 && JsonSize(r, x) <= 24_000
            && (forall i, j :: 0 <= i < j < |r| ==> r[i].id != r[j].id)
            && (forall o :: o in r ==> o.id in byId && o == byId[o.id] && o.id in ids)
            && forall id :: id in ids && id in byId ==>
                 byId[id] in r || |r| == 64 || JsonSize(r + [byId[id]], x) > 24_000
  {
    var r := Selected(ids, byId, x);
    SelectedFits(ids, byId, x);
    PayloadIsSize(r, x);
    forall o ensures Payload(r + [o], x) == JsonSize(r + [o], x) { PayloadIsSize(r + [o], x); }
    hide Selected, Payload, JsonSize;
  }

  // --- Newest first ------------------------------------------------------------------------------

  /** Position `k` is the first at which `id` occurs. */
  ghost predicate FirstAt(ids: seq<string>, id: string, k: nat) {
    k < |ids| && ids[k] == id && forall j :: 0 <= j < k ==> ids[j] != id
  }

  /** The candidates come in the order in which their ids first occur. */
  lemma {:induction false} SelectedFollows(ids: seq<string>, byId: map<string, Observation>, x: Text)
    returns (at: seq<nat>)
    requires forall id :: id in byId ==> byId[id].id == id
    ensures |at| == |Selected(ids, byId, x)|
    ensures forall i :: 0 <= i < |at| ==> FirstAt(ids, Selected(ids, byId, x)[i].id, at[i])
    ensures forall i, j :: 0 <= i < j < |at| ==> at[i] < at[j]
    decreases |ids|
  {
    at := [];
    if ids != [] {
      var n := |ids| - 1;
      var front := Selected(ids[..n], byId, x);
      at := SelectedFollows(ids[..n], byId, x);
      SelectedFits(ids[..n], byId, x);
      hide Admits, Selected, Bounded, FirstAt, Taken;
      SelectedStep(ids, byId, x);
      forall i | 0 <= i < |at| ensures FirstAt(ids, front[i].id, at[i]) && at[i] < n {
        FirstAtMore(ids, n, front[i].id, at[i]);
      }
      if ids[n] in byId && !Taken(front, ids[n]) && Admits(front, byId[ids[n]], x) {
        NotBefore(ids, front, byId, x);
        at := at + [n];
      }
    }
  }

  lemma FirstAtMore(ids: seq<string>, n: nat, id: string, k: nat)
    requires n <= |ids| && FirstAt(ids[..n], id, k)
    ensures FirstAt(ids, id, k) && k < n
  {
    assert forall j :: 0 <= j < n ==> ids[..n][j] == ids[j];
  }

  lemma SelectedStep(ids: seq<string>, byId: map<string, Observation>, x: Text)
    requires ids != []
    ensures var front, id := Selected(ids[..|ids| - 1], byId, x), ids[|ids| - 1];
            Selected(ids, byId, x)
            == if id in byId && !Taken(front, id) && Admits(front, byId[id], x) then front + [byId[id]] else front
  {
  }

  /** An id that is taken only now did not occur before: left out once, it would be left out again. */
  lemma NotBefore(ids: seq<string>, front: seq<Observation>, byId: map<string, Observation>, x: Text)
    requires ids != [] && ids[|ids| - 1] in byId && (forall id :: id in byId ==> byId[id].id == id)
    requires !Taken(front, ids[|ids| - 1]) && Admits(front, byId[ids[|ids| - 1]], x)
    requires forall id :: id in ids[..|ids| - 1] && id in byId ==> byId[id] in front || !Admits(front, byId[id], x)
    ensures FirstAt(ids, ids[|ids| - 1], |ids| - 1)
  {
    hide Admits;
    var n := |ids| - 1;
    forall j | 0 <= j < n ensures ids[j] != ids[n] { assert ids[..n][j] in ids[..n]; }
  }

  /** Update `k` is the last one that names `id`. */
  ghost predicate LastNaming(updates: seq<Update>, id: string, k: nat) {
    && k < |updates| && updates[k].revision.target == id
    && forall j :: k < j < |updates| ==> updates[j].revision.target != id
  }

  ghost predicate Named(updates: seq<Update>, id: string) {
    exists k :: 0 <= k < |updates| && updates[k].revision.target == id
  }

  /** Observations under revision come first, latest revision first; the others follow, latest posted first. */
  ghost predicate ComesBefore(os: seq<Observation>, updates: seq<Update>, a: Observation, b: Observation) {
    if Named(updates, a.id) then
      Named(updates, b.id) ==>
        exists i: nat, j: nat :: LastNaming(updates, a.id, i) && LastNaming(updates, b.id, j) && j < i
    else
      && !Named(updates, b.id)
      && exists i, j :: 0 <= j < i < |os| && os[i] == a && os[j] == b
  }

  lemma PriorityAt(os: seq<Observation>, updates: seq<Update>, id: string, k: nat)
    requires FirstAt(Priority(os, updates), id, k)
    ensures if k < |updates| then LastNaming(updates, id, |updates| - 1 - k)
            else !Named(updates, id) && k < |updates| + |os| && os[|updates| + |os| - 1 - k].id == id
  {
    var ids := Priority(os, updates);
    forall j | 0 <= j < |updates| ensures ids[|updates| - 1 - j] == updates[j].revision.target {}
    if k < |updates| {
      forall j | |updates| - 1 - k < j < |updates| ensures updates[j].revision.target != id {
        assert ids[|updates| - 1 - j] != id;
      }
    } else {
      forall j | 0 <= j < |updates| ensures updates[j].revision.target != id {
        assert ids[|updates| - 1 - j] != id;
      }
    }
  }

  lemma InPriorityOrder(os: seq<Observation>, updates: seq<Update>, a: Observation, b: Observation, m: nat, n: nat)
    requires forall i, j :: 0 <= i < j < |os| ==> os[i].id != os[j].id
    requires a in os && b in os && m < n
    requires FirstAt(Priority(os, updates), a.id, m) && FirstAt(Priority(os, updates), b.id, n)
    ensures ComesBefore(os, updates, a, b)
  {
    PriorityAt(os, updates, a.id, m);
    PriorityAt(os, updates, b.id, n);
    hide Priority, FirstAt;
    if n < |updates| {
      assert LastNaming(updates, a.id, |updates| - 1 - m) && LastNaming(updates, b.id, |updates| - 1 - n);
      assert updates[|updates| - 1 - m].revision.target == a.id;
    } else if m < |updates| {
      assert updates[|updates| - 1 - m].revision.target == a.id;
    } else {
      var i, j := |updates| + |os| - 1 - m, |updates| + |os| - 1 - n;
      Identified(os, a, i);
      Identified(os, b, j);
    }
  }

  lemma Identified(os: seq<Observation>, o: Observation, i: nat)
    requires forall i, j :: 0 <= i < j < |os| ==> os[i].id != os[j].id
    requires o in os && i < |os| && os[i].id == o.id
    ensures os[i] == o
  {
    var j :| 0 <= j < |os| && os[j] == o;
  }

  /** The candidates: targets of updates first, latest update first, then the other observations, newest first. */
  lemma NewestFirst(os: seq<Observation>, updates: seq<Update>, x: Text, i: nat, j: nat)
    requires forall i, j :: 0 <= i < j < |os| ==> os[i].id != os[j].id
    requires i < j < |Selected(Priority(os, updates), ById(os), x)|
    ensures var r := Selected(Priority(os, updates), ById(os), x);
            ComesBefore(os, updates, r[i], r[j])
  {
    forall id ensures id in ById(os) ==> ById(os)[id] in os && ById(os)[id].id == id { ByIdFinds(os, id); }
    SelectedFits(Priority(os, updates), ById(os), x);
    var at := SelectedFollows(Priority(os, updates), ById(os), x);
    var r := Selected(Priority(os, updates), ById(os), x);
    hide Selected, Priority, ById, FirstAt, ComesBefore, Bounded, Admits;
    assert r[i] in r && r[j] in r;
    InPriorityOrder(os, updates, r[i], r[j], at[i], at[j]);
  }

  /** The candidates are distinct observations, at most 64 and 24000 bytes of them; no observation left out would
      still fit at the end. */
  lemma CandidatesMaximal(os: seq<Observation>, updates: seq<Update>, x: Text, o: Observation)
    requires forall i, j :: 0 <= i < j < |os| ==> os[i].id != os[j].id
    ensures var r := Selected(Priority(os, updates), ById(os), x);
            && |r| <= 64 && JsonSize(r, x) <= 24_000
            && (forall i, j :: 0 <= i < j < |r| ==> r[i].id != r[j].id)
            && (o in r ==> o in os)
            && (o in os ==> o in r || |r| == 64 || JsonSize(r + [o], x) > 24_000)
  {
    hide Selected, JsonSize, ById, Priority;
    forall id ensures id in ById(os) ==> ById(os)[id] in os && ById(os)[id].id == id { ByIdFinds(os, id); }
    SelectedMaximal(Priority(os, updates), ById(os), x);
    if o in os {
      HasPriority(os, updates, o);
      FoundById(os, o);
    }
  }

  lemma HasPriority(os: seq<Observation>, updates: seq<Update>, o: Observation)
    requires o in os
    ensures o.id in Priority(os, updates)
  {
    var i :| 0 <= i < |os| && os[i] == o;
    assert Priority(os, updates)[|updates| + |os| - 1 - i] == o.id;
  }

  lemma FoundById(os: seq<Observation>, o: Observation)
    requires o in os && forall i, j :: 0 <= i < j < |os| ==> os[i].id != os[j].id
    ensures o.id in ById(os) && ById(os)[o.id] == o
  {
    hide ById;
    ByIdFinds(os, o.id);
    var k :| 0 <= k < |os| && os[k] == ById(os)[o.id];
    Identified(os, o, k);
  }

  lemma NothingSelected(x: Text)
    ensures Bounded([], x)
  {
  }
}
