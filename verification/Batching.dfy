/** Grouping requests into batches: inference/batch.go, OptimizeBatch and createBatch. */
module BatchingModel {
  import opened Grouping
  import opened MapOrder
  import opened Sorting

  /** `parameters` stands for the printed max-tokens, temperature and top-p. */
  datatype Request = Request(id: string, modelId: string, parameters: string)

  /** The groups of the keys in `order`, one after the other. */
  function Groups(reqs: seq<Request>, key: Request -> string, order: seq<string>): seq<Request> {
    if order == [] then []
    else Groups(reqs, key, order[..|order| - 1]) + Select(reqs, key, order[|order| - 1])
  }

  lemma {:induction false} GroupsCount(reqs: seq<Request>, key: Request -> string, order: seq<string>, r: Request)
    requires forall i, j :: 0 <= i < j < |order| ==> order[i] != order[j]
    ensures multiset(Groups(reqs, key, order))[r] == if key(r) in order then multiset(reqs)[r] else 0
  {
    if order != [] {
      var n := |order| - 1;
      GroupsCount(reqs, key, order[..n], r);
      SelectCount(reqs, key, order[n], r);
      assert order == order[..n] + [order[n]];
      assert key(r) == order[n] ==> key(r) !in order[..n];
    }
  }

  /** Regrouping loses and invents no request, whatever order the groups come in. */
  lemma GroupsPermute(reqs: seq<Request>, key: Request -> string, order: seq<string>)
    requires Enumerates(order, KeySet(reqs, key))
    ensures Permutation(Groups(reqs, key, order), reqs)
  {
    forall r
      ensures multiset(Groups(reqs, key, order))[r] == multiset(reqs)[r]
    {
      GroupsCount(reqs, key, order, r);
      assert r in multiset(reqs) ==> r in reqs && key(r) in KeySet(reqs, key);
    }
  }

  // ----- Dynamic batching

  function ModelOf(r: Request): string {
    r.modelId
  }

  function ParametersOf(r: Request): string {
    r.parameters
  }

  lemma {:induction false} GroupsMembers(reqs: seq<Request>, order: seq<string>)
    ensures forall r :: r in Groups(reqs, ParametersOf, order) ==> r.parameters in order
  {
    if order != [] {
      var n := |order| - 1;
      GroupsMembers(reqs, order[..n]);
      SelectMember(reqs, ParametersOf, order[n]);
    }
  }

  /** Requests of equal parameters come together. */
  ghost predicate Together(rs: seq<Request>) {
    forall i, j, k :: 0 <= i < j < k < |rs| && rs[i].parameters == rs[k].parameters ==>
      rs[j].parameters == rs[i].parameters
  }

  lemma {:induction false} GroupsTogether(reqs: seq<Request>, order: seq<string>)
    requires DistinctKeys(order)
    ensures Together(Groups(reqs, ParametersOf, order))
  {
    if order != [] {
      var n := |order| - 1;
      var front, last := Groups(reqs, ParametersOf, order[..n]), Select(reqs, ParametersOf, order[n]);
      GroupsTogether(reqs, order[..n]);
      GroupsMembers(reqs, order[..n]);
      SelectMember(reqs, ParametersOf, order[n]);
      assert forall r :: r in front ==> r.parameters != order[n];
      assert forall i :: 0 <= i < |front| ==> front[i] in front;
      assert forall i :: 0 <= i < |last| ==> last[i] in last;
    }
  }

  /** What is still pending after the groups of `sent` went out: that many requests are dropped
      from the front. */
  function Remaining(pending: seq<Request>, sent: seq<string>): seq<Request> {
    var n := |Groups(pending, ModelOf, sent)|;
    if n <= |pending| then pending[n..] else []
  }

  /** The requests sent out and those still pending are together the original ones. */
  ghost predicate Conserves(pending: seq<Request>, sent: seq<string>) {
    Permutation(Groups(pending, ModelOf, sent) + Remaining(pending, sent), pending)
  }

  ghost predicate DistinctKeys(order: seq<string>) {
    forall i, j :: 0 <= i < j < |order| ==> order[i] != order[j]
  }

  function Chosen(reqs: seq<Request>, sent: seq<string>): seq<Request> {
    if reqs == [] then []
    else
      var earlier, last := Chosen(reqs[..|reqs| - 1], sent), reqs[|reqs| - 1];
      if last.modelId in sent then earlier + [last] else earlier
  }

  lemma {:induction false} ChosenCount(reqs: seq<Request>, sent: seq<string>, r: Request)
    ensures multiset(Chosen(reqs, sent))[r] == if r.modelId in sent then multiset(reqs)[r] else 0
  {
    if reqs != [] {
      var n := |reqs| - 1;
      ChosenCount(reqs[..n], sent, r);
      assert reqs == reqs[..n] + [reqs[n]];
    }
  }

  lemma SentCounts(pending: seq<Request>, sent: seq<string>)
    requires DistinctKeys(sent)
    ensures Permutation(Groups(pending, ModelOf, sent), Chosen(pending, sent))
    ensures |Groups(pending, ModelOf, sent)| == |Chosen(pending, sent)| <= |pending|
  {
    var out, chosen := Groups(pending, ModelOf, sent), Chosen(pending, sent);
    forall r
      ensures multiset(out)[r] == multiset(chosen)[r]
    {
      GroupsCount(pending, ModelOf, sent, r);
      ChosenCount(pending, sent, r);
    }
    assert multiset(out) == multiset(chosen);
    assert |multiset(out)| == |out| && |multiset(chosen)| == |chosen|;
    ChosenLength(pending, sent);
  }

  lemma {:induction false} ChosenLength(reqs: seq<Request>, sent: seq<string>)
    ensures |Chosen(reqs, sent)| <= |reqs|
  {
    if reqs != [] {
      ChosenLength(reqs[..|reqs| - 1], sent);
    }
  }

  lemma {:induction false} ChosenAll(reqs: seq<Request>, sent: seq<string>)
    requires forall i :: 0 <= i < |reqs| ==> reqs[i].modelId in sent
    ensures Chosen(reqs, sent) == reqs
  {
    if reqs != [] {
      var n := |reqs| - 1;
      ChosenAll(reqs[..n], sent);
      assert reqs == reqs[..n] + [reqs[n]];
    }
  }

  lemma {:induction false} ChosenConcat(s: seq<Request>, t: seq<Request>, sent: seq<string>)
    ensures Chosen(s + t, sent) == Chosen(s, sent) + Chosen(t, sent)
  {
    if t == [] {
      assert s + t == s;
    } else {
      var n := |t| - 1;
      ChosenConcat(s, t[..n], sent);
      assert (s + t)[..|s + t| - 1] == s + t[..n];
    }
  }

  lemma FrontMatters(out: seq<Request>, front: seq<Request>, rest: seq<Request>)
    ensures Permutation(out + rest, front + rest) <==> Permutation(out, front)
  {
    assert multiset(out + rest) == multiset(out) + multiset(rest);
    assert multiset(front + rest) == multiset(front) + multiset(rest);
    if Permutation(out + rest, front + rest) {
      assert multiset(out) == multiset(out + rest) - multiset(rest);
      assert multiset(front) == multiset(front + rest) - multiset(rest);
    }
  }

  /** If as many requests are chosen as the front has, and the front is chosen, then just the front is. */
  lemma FrontChosen(front: seq<Request>, rest: seq<Request>, sent: seq<string>)
    requires |Chosen(front + rest, sent)| == |front| && forall i :: 0 <= i < |front| ==> front[i].modelId in sent
    ensures Chosen(front + rest, sent) == front
  {
    ChosenConcat(front, rest, sent);
    ChosenAll(front, sent);
  }

  lemma OutIsFrontIff(out: seq<Request>, front: seq<Request>, rest: seq<Request>, sent: seq<string>)
    requires Permutation(out, Chosen(front + rest, sent)) && |out| == |front|
    ensures Permutation(out, front) <==> forall i :: 0 <= i < |front| ==> front[i].modelId in sent
  {
    assert |multiset(out)| == |multiset(Chosen(front + rest, sent))|;
    if forall i :: 0 <= i < |front| ==> front[i].modelId in sent {
      FrontChosen(front, rest, sent);
    } else {
      var i :| 0 <= i < |front| && front[i].modelId !in sent;
      ChosenCount(front + rest, sent, front[i]);
      assert multiset(out)[front[i]] == 0;
      assert front[i] in multiset(front);
    }
  }

  /** Requests are conserved exactly when the front that is dropped holds only requests of the
      models sent out. */
  lemma ConservesIff(pending: seq<Request>, sent: seq<string>)
    requires DistinctKeys(sent)
    ensures |Groups(pending, ModelOf, sent)| <= |pending|
    ensures Conserves(pending, sent) <==>
            forall i :: 0 <= i < |Groups(pending, ModelOf, sent)| ==> pending[i].modelId in sent
  {
    SentCounts(pending, sent);
    var out := Groups(pending, ModelOf, sent);
    var front, rest := pending[..|out|], pending[|out|..];
    assert pending == front + rest && Remaining(pending, sent) == rest;
    FrontMatters(out, front, rest);
    OutIsFrontIff(out, front, rest, sent);
  }

  /** With room for every group, everything is sent and nothing stays pending. */
  lemma AllSent(pending: seq<Request>, order: seq<string>)
    requires Enumerates(order, KeySet(pending, ModelOf))
    ensures Permutation(Groups(pending, ModelOf, order), pending) && Remaining(pending, order) == []
  {
    GroupsPermute(pending, ModelOf, order);
    assert |multiset(Groups(pending, ModelOf, order))| == |multiset(pending)|;
  }

  /** The first `room` models of an order. */
  function Sent(order: seq<string>, room: nat): seq<string> {
    if room < |order| then order[..room] else order
  }

  lemma SomethingSent(pending: seq<Request>, sent: seq<string>, r: Request)
    requires DistinctKeys(sent) && r in pending && r.modelId in sent
    ensures Groups(pending, ModelOf, sent) != []
  {
    GroupsCount(pending, ModelOf, sent, r);
    assert r in multiset(pending);
  }

  /** An order that puts the model of the first pending request last. */
  lemma FirstModelLast(pending: seq<Request>) returns (order: seq<string>)
    requires pending != []
    ensures Enumerates(order, KeySet(pending, ModelOf)) && order != []
    ensures order[|order| - 1] == pending[0].modelId && |order| == |KeySet(pending, ModelOf)|
  {
    var all, first := KeySet(pending, ModelOf), pending[0].modelId;
    assert ModelOf(pending[0]) in all;
    var others := SomeOrder(all - {first});
    order := others + [first];
    EnumerationSize(order, all);
  }

  lemma PartialOrderLoses(pending: seq<Request>, order: seq<string>, room: nat)
    requires Enumerates(order, KeySet(pending, ModelOf)) && 0 < room < |order| && pending != []
    requires order[|order| - 1] == pending[0].modelId
    ensures !Conserves(pending, Sent(order, room))
  {
    var sent := Sent(order, room);
    assert order[0] in order && sent[0] == order[0];
    var r :| r in pending && ModelOf(r) == order[0];
    SomethingSent(pending, sent, r);
    ConservesIff(pending, sent);
    assert pending[0].modelId !in sent;
  }

  /** The caller's law: whatever order the models come in, requests are conserved exactly if the
      channel has room for no batch at all or for one of every model. */
  lemma ConservedInEveryOrderIff(pending: seq<Request>, room: nat)
    ensures (forall order :: Enumerates(order, KeySet(pending, ModelOf)) ==> Conserves(pending, Sent(order, room)))
            <==> room == 0 || room >= |KeySet(pending, ModelOf)|
  {
    if room == 0 || room >= |KeySet(pending, ModelOf)| {
      forall order | Enumerates(order, KeySet(pending, ModelOf))
        ensures Conserves(pending, Sent(order, room))
      {
        EnumerationSize(order, KeySet(pending, ModelOf));
        if room < |order| {
          assert Groups(pending, ModelOf, Sent(order, room)) == [];
          assert [] + pending == pending;
        } else {
          AllSent(pending, order);
          assert Groups(pending, ModelOf, order) + [] == Groups(pending, ModelOf, order);
        }
      }
    } else {
      assert pending != [];
      var order := FirstModelLast(pending);
      PartialOrderLoses(pending, order, room);
    }
  }

  /** When only some groups fit, a request can be lost and another be sent again. */
  lemma PartialSendLoses()
    ensures var a, b := Request("1", "a", ""), Request("2", "b", "");
            !Conserves([a, b], ["b"]) && Groups([a, b], ModelOf, ["b"]) == [b] && Remaining([a, b], ["b"]) == [b]
  {
    var a, b := Request("1", "a", ""), Request("2", "b", "");
    assert [a, b][..1] == [a];
    assert Select([b], ModelOf, "b") == [b];
    assert Select([a, b], ModelOf, "b") == [b];
    assert Groups([a, b], ModelOf, ["b"]) == [b];
    ConservesIff([a, b], ["b"]);
    assert [a, b][0].modelId !in ["b"];
  }
}

/** The batch processor's and the dynamic batcher's methods as the source has them. */
module Batching {
  import opened BatchingModel
  import opened Grouping
  import opened MapOrder
  import opened Sorting

  datatype BatchRequest = BatchRequest(modelId: string, requests: seq<Request>)

  /** The optimized batch has the same requests, group by group. */
  method OptimizeBatch(requests: seq<Request>, enabled: bool) returns (optimized: seq<Request>)
    ensures if enabled
            then exists order ::
                   && Enumerates(order, KeySet(requests, ParametersOf))
                   && optimized == Groups(requests, ParametersOf, order)
            else optimized == requests
    ensures Permutation(optimized, requests) && (enabled ==> Together(optimized))
  {
    if !enabled {
      return requests;
    }
    var groups := GroupBy(requests, ParametersOf);
    var order := Ordering(groups.Keys);
    optimized := [];
    for i := 0 to |order|
      invariant optimized == Groups(requests, ParametersOf, order[..i])
    {
      assert order[..i + 1][..i] == order[..i];
      optimized := optimized + groups[order[i]];
    }
    assert order[..|order|] == order;
    GroupsPermute(requests, ParametersOf, order);
    GroupsTogether(requests, order);
  }

  class DynamicBatcher {
    var pendingReqs: seq<Request>
    var batchChan: seq<BatchRequest>
    const capacity: nat

    constructor (capacity: nat)
      ensures pendingReqs == [] && batchChan == [] && this.capacity == capacity
    {
      pendingReqs, batchChan, this.capacity := [], [], capacity;
    }

    method AddRequest(req: Request)
      modifies this`pendingReqs
      ensures pendingReqs == old(pendingReqs) + [req]
    {
      pendingReqs := pendingReqs + [req];
    }

    /** Sends one batch per model, in some order, as long as the channel has room; `sent` are the models. */
    method CreateBatch() returns (ghost order: seq<string>, ghost sent: seq<string>)
      requires |batchChan| <= capacity
      modifies this
      ensures Enumerates(order, KeySet(old(pendingReqs), ModelOf)) && |batchChan| <= capacity
      ensures sent == Sent(order, capacity - |old(batchChan)|)
      ensures batchChan == old(batchChan) + Batches(old(pendingReqs), sent)
      ensures pendingReqs == Remaining(old(pendingReqs), sent)
    {
      if |pendingReqs| == 0 {
        return [], [];
      }
      ghost var pending := pendingReqs;
      var modelGroups := GroupBy(pendingReqs, ModelOf);
      var models := Ordering(modelGroups.Keys);
      order, sent := models, [];
      for i := 0 to |models|
        invariant sent == models[..i] && |batchChan| <= capacity
        invariant batchChan == old(batchChan) + Batches(pending, sent)
        invariant pendingReqs == Remaining(pending, sent)
      {
        if |batchChan| == capacity {
          return;
        }
        var requests := modelGroups[models[i]];
        BatchesSnoc(pending, models, i);
        batchChan := batchChan + [BatchRequest(models[i], requests)];
        SendOne(pending, models, i, requests);
        pendingReqs := pendingReqs[|requests|..];
        sent := models[..i + 1];
      }
      assert models[..|models|] == models;
    }
  }

  lemma GroupsSnoc(pending: seq<Request>, models: seq<string>, i: nat)
    requires i < |models|
    ensures Groups(pending, ModelOf, models[..i + 1])
         == Groups(pending, ModelOf, models[..i]) + Select(pending, ModelOf, models[i])
  {
    assert models[..i + 1][..i] == models[..i];
  }

  lemma BatchesSnoc(pending: seq<Request>, models: seq<string>, i: nat)
    requires i < |models|
    ensures Batches(pending, models[..i + 1])
         == Batches(pending, models[..i]) + [BatchRequest(models[i], Select(pending, ModelOf, models[i]))]
  {
  }

  /** Sending one more group drops as many requests as it has. */
  lemma SendOne(pending: seq<Request>, models: seq<string>, i: nat, group: seq<Request>)
    requires DistinctKeys(models) && i < |models| && group == Select(pending, ModelOf, models[i])
    ensures |group| <= |Remaining(pending, models[..i])|
    ensures Remaining(pending, models[..i])[|group|..] == Remaining(pending, models[..i + 1])
  {
    GroupsSnoc(pending, models, i);
    SentCounts(pending, models[..i + 1]);
    var before, now := Groups(pending, ModelOf, models[..i]), Groups(pending, ModelOf, models[..i + 1]);
    assert |now| == |before| + |group| <= |pending|;
  }

  /** The batches that go out for the models in `sent`. */
  ghost function Batches(pending: seq<Request>, sent: seq<string>): seq<BatchRequest> {
    seq(|sent|, i requires 0 <= i < |sent| => BatchRequest(sent[i], Select(pending, ModelOf, sent[i])))
  }

  /** The requests of batches, one batch after the other. */
  ghost function Requests(batches: seq<BatchRequest>): seq<Request> {
    if batches == [] then [] else Requests(batches[..|batches| - 1]) + batches[|batches| - 1].requests
  }

  /** The batches that go out hold the groups of the models sent and nothing else, and each only requests of its
      model. */
  lemma {:induction false} BatchesHoldGroups(pending: seq<Request>, sent: seq<string>)
    ensures Requests(Batches(pending, sent)) == Groups(pending, ModelOf, sent)
    ensures forall i :: 0 <= i < |sent| ==>
              var b := Batches(pending, sent)[i];
              b.modelId == sent[i] && forall r :: r in b.requests <==> r in pending && r.modelId == b.modelId
  {
    forall i | 0 <= i < |sent|
      ensures var b := Batches(pending, sent)[i];
              b.modelId == sent[i] && forall r :: r in b.requests <==> r in pending && r.modelId == b.modelId
    {
      SelectMember(pending, ModelOf, sent[i]);
    }
    if sent != [] {
      var front := sent[..|sent| - 1];
      BatchesHoldGroups(pending, front);
      assert Batches(pending, sent)[..|sent| - 1] == Batches(pending, front);
    }
  }
}
