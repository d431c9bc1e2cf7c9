/** Collecting every agent's provider requests and responses, with shared providers counted once. */
module ProviderTrace {
  import opened Logs

  /** One provider call as recorded: its request id and whatever came with it. */
  datatype Call = Call(id: string, body: string)

  /** An agent's provider; agents that have none are skipped. */
  datatype Provider = Provider(requests: seq<Call>, responses: seq<Call>)

  function Everything(agents: seq<Option<Provider>>, pick: Provider -> seq<Call>): seq<Call> {
    if agents == [] then []
    else
      Everything(agents[..|agents| - 1], pick) +
      if agents[|agents| - 1].Some? then pick(agents[|agents| - 1].value) else []
  }

  function RequestsOf(): Provider -> seq<Call> { (p: Provider) => p.requests }

  function ResponsesOf(): Provider -> seq<Call> { (p: Provider) => p.responses }

  predicate HasId(calls: seq<Call>, id: string) {
    exists c :: c in calls && c.id == id
  }

  /** The calls in order, each id only the first time. */
  function FirstById(calls: seq<Call>): seq<Call> {
    if calls == [] then []
    else
      var before := FirstById(calls[..|calls| - 1]);
      if HasId(before, calls[|calls| - 1].id) then before else before + [calls[|calls| - 1]]
  }

  predicate DistinctIds(calls: seq<Call>) {
    forall i, j :: 0 <= i < j < |calls| ==> calls[i].id != calls[j].id
  }

  lemma HasIdSnoc(calls: seq<Call>, c: Call, id: string)
    ensures HasId(calls + [c], id) <==> HasId(calls, id) || c.id == id
  {
    assert forall d :: d in calls + [c] <==> d in calls || d == c;
    assert c in calls + [c];
    if HasId(calls, id) {
      var d :| d in calls && d.id == id;
      assert d in calls + [c];
    }
  }

  lemma FirstSnoc(calls: seq<Call>, c: Call)
    ensures FirstById(calls + [c]) ==
            if HasId(FirstById(calls), c.id) then FirstById(calls) else FirstById(calls) + [c]
  {
    assert (calls + [c])[..|calls|] == calls;
  }

  /** Nothing new, no id lost, no id twice. */
  lemma {:induction false} FirstByIdExactly(calls: seq<Call>)
    ensures forall c :: c in FirstById(calls) ==> c in calls
    ensures forall id :: HasId(FirstById(calls), id) <==> HasId(calls, id)
    ensures DistinctIds(FirstById(calls))
    ensures forall i :: 0 <= i < |calls| && (forall j :: 0 <= j < i ==> calls[j].id != calls[i].id) ==>
              calls[i] in FirstById(calls)
  {
    if calls != [] {
      var init, last := calls[..|calls| - 1], calls[|calls| - 1];
      assert calls == init + [last];
      FirstByIdExactly(init);
      FirstSnoc(init, last);
      var before := FirstById(init);
      hide FirstById, HasId, DistinctIds;
      forall id
        ensures HasId(calls, id) <==> HasId(init, id) || last.id == id
        ensures HasId(before + [last], id) <==> HasId(before, id) || last.id == id
      {
        HasIdSnoc(init, last, id);
        HasIdSnoc(before, last, id);
      }
      if !HasId(before, last.id) {
        DistinctIdsSnoc(before, last);
      }
      forall i | 0 <= i < |calls| && (forall j :: 0 <= j < i ==> calls[j].id != calls[i].id) ensures calls[i] in FirstById(calls) {
        if i < |init| {
          assert init[i] == calls[i] && forall j :: 0 <= j < i ==> init[j] == calls[j];
        } else {
          NewId(init, last);
        }
      }
    }
  }

  lemma NewId(calls: seq<Call>, c: Call)
    requires forall j :: 0 <= j < |calls| ==> calls[j].id != c.id
    ensures !HasId(calls, c.id)
  {
  }

  lemma DistinctIdsSnoc(calls: seq<Call>, c: Call)
    requires DistinctIds(calls) && !HasId(calls, c.id)
    ensures DistinctIds(calls + [c])
  {
    assert forall i :: 0 <= i < |calls| ==> calls[i] in calls;
  }

  /** Append one provider's calls, skipping ids already seen when de-duplicating. */
  method Extend(calls: seq<Call>, dedup: bool, seen: set<string>, out: seq<Call>, ghost all: seq<Call>)
    returns (seen': set<string>, out': seq<Call>)
    requires out == if dedup then FirstById(all) else all
    requires forall id :: id in seen <==> HasId(out, id)
    ensures out' == if dedup then FirstById(all + calls) else all + calls
    ensures forall id :: id in seen' <==> HasId(out', id)
  {
    hide FirstById, HasId;
    seen', out' := seen, out;
    assert all + calls[..0] == all;
    for i := 0 to |calls|
      invariant out' == if dedup then FirstById(all + calls[..i]) else all + calls[..i]
      invariant forall id :: id in seen' <==> HasId(out', id)
    {
      var c := calls[i];
      assert all + calls[..i + 1] == (all + calls[..i]) + [c];
      FirstSnoc(all + calls[..i], c);
      if dedup && c.id in seen' {
        continue;
      }
      forall id ensures HasId(out' + [c], id) <==> HasId(out', id) || c.id == id { HasIdSnoc(out', c, id); }
      seen' := seen' + {c.id};
      out' := out' + [c];
    }
    assert all + calls[..|calls|] == all + calls;
  }

  method CollectProviderTrace(agents: seq<Option<Provider>>, dedup: bool) returns (requests: seq<Call>, responses: seq<Call>)
    ensures requests == if dedup then FirstById(Everything(agents, RequestsOf())) else Everything(agents, RequestsOf())
    ensures responses == if dedup then FirstById(Everything(agents, ResponsesOf())) else Everything(agents, ResponsesOf())
  {
    hide FirstById;
    requests, responses := [], [];
    assert FirstById([]) == [] by { NothingFirst(); }
    var seenRequests: set<string>, seenResponses: set<string> := {}, {};
    for i := 0 to |agents|
      invariant requests == if dedup then FirstById(Everything(agents[..i], RequestsOf())) else Everything(agents[..i], RequestsOf())
      invariant responses == if dedup then FirstById(Everything(agents[..i], ResponsesOf())) else Everything(agents[..i], ResponsesOf())
      invariant forall id :: id in seenRequests <==> HasId(requests, id)
      invariant forall id :: id in seenResponses <==> HasId(responses, id)
    {
      assert agents[..i + 1][..i] == agents[..i];
      if agents[i].Some? {
        var p := agents[i].value;
        seenRequests, requests := Extend(p.requests, dedup, seenRequests, requests, Everything(agents[..i], RequestsOf()));
        seenResponses, responses := Extend(p.responses, dedup, seenResponses, responses, Everything(agents[..i], ResponsesOf()));
      } else {
        assert Everything(agents[..i], RequestsOf()) + [] == Everything(agents[..i], RequestsOf());
        assert Everything(agents[..i], ResponsesOf()) + [] == Everything(agents[..i], ResponsesOf());
      }
    }
    assert agents[..|agents|] == agents;
  }

  lemma NothingFirst()
    ensures FirstById([]) == []
  {
  }

  /** A list without repeats counts each of its members once. */
  lemma {:induction false} OnceEach<T(!new)>(items: seq<T>)
    requires Distinct(items)
    ensures forall x :: multiset(items)[x] == if x in items then 1 else 0
  {
    if items != [] {
      var init, last := items[..|items| - 1], items[|items| - 1];
      assert items == init + [last];
      OnceEach(init);
    }
  }

  lemma SameMembersSameBag<T(!new)>(a: seq<T>, b: seq<T>)
    requires Distinct(a) && Distinct(b) && forall x :: x in a <==> x in b
    ensures multiset(a) == multiset(b) && |a| == |b|
  {
    hide Distinct;
    OnceEach(a);
    OnceEach(b);
    assert |multiset(a)| == |a| && |multiset(b)| == |b|;
  }

  /** When an id names one call, as in a run, the trace holds each call exactly once and holds them all. */
  lemma EachCallExactlyOnce(calls: seq<Call>)
    requires forall c, d :: c in calls && d in calls && c.id == d.id ==> c == d
    ensures forall c :: c in FirstById(calls) <==> c in calls
    ensures Distinct(FirstById(calls))
  {
    hide FirstById;
    FirstByIdExactly(calls);
    forall c | c in calls ensures c in FirstById(calls) {
      assert HasId(calls, c.id);
    }
  }

  /** Some seat's provider recorded this call. */
  predicate Recorded(agents: seq<Option<Provider>>, pick: Provider -> seq<Call>, c: Call) {
    exists i :: 0 <= i < |agents| && agents[i].Some? && c in pick(agents[i].value)
  }

  lemma {:induction false} EverythingHas(agents: seq<Option<Provider>>, pick: Provider -> seq<Call>, c: Call)
    ensures c in Everything(agents, pick) <==> Recorded(agents, pick, c)
  {
    if agents != [] {
      var init := agents[..|agents| - 1];
      EverythingHas(init, pick, c);
      if i :| 0 <= i < |init| && init[i].Some? && c in pick(init[i].value) { assert agents[i] == init[i]; }
      if i :| 0 <= i < |agents| && agents[i].Some? && c in pick(agents[i].value) {
        assert i == |init| || init[i] == agents[i];
      }
    }
  }

  /**
    Sharing makes no difference: when the seats made the same calls in total, whoever's provider recorded them and however
    often, the traces hold the same calls, each once.
  */
  lemma SharingIsIrrelevant(a: seq<Option<Provider>>, b: seq<Option<Provider>>, pick: Provider -> seq<Call>)
    requires forall c, d :: c in Everything(a, pick) && d in Everything(a, pick) && c.id == d.id ==> c == d
    requires forall c :: Recorded(a, pick, c) <==> Recorded(b, pick, c)
    ensures multiset(FirstById(Everything(a, pick))) == multiset(FirstById(Everything(b, pick)))
  {
    hide FirstById, Everything;
    forall c ensures c in Everything(a, pick) <==> c in Everything(b, pick) {
      EverythingHas(a, pick, c);
      EverythingHas(b, pick, c);
      assert Recorded(a, pick, c) <==> Recorded(b, pick, c);
    }
    EachCallExactlyOnce(Everything(a, pick));
    EachCallExactlyOnce(Everything(b, pick));
    SameMembersSameBag(FirstById(Everything(a, pick)), FirstById(Everything(b, pick)));
  }
}
