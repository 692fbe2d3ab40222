/** `publish_once` and the gateway behind it, over a real buffer. */
module Publish {
  import opened Wire
  import opened Buffer
  import opened Delivery

  function Min(a: nat, b: nat): nat { if a < b then a else b }

  /** The steps one call takes: `reached` is how many of the post's events get to the broker, `answered` whether a
      200 sent for all of them gets back. */
  function CallSteps(batch: seq<Row>, limit: int, reached: nat, answered: bool): seq<Step> {
    if batch == [] then [Read(limit)]
    else if answered && |batch| <= reached then [Read(limit)] + Produces(|batch|) + [Reply, Ack]
    else [Read(limit)] + Produces(Min(reached, |batch|)) + [Fail]
  }

  class Publisher {
    const db: Db
    var topic: seq<Row>
    ghost var accepted: seq<Row>

    constructor (db: Db)
      requires db.View() == FRESH.table
      ensures this.db == db && View() == FRESH
    {
      this.db := db;
      topic, accepted := [], [];
    }

    /** The station between two calls. */
    ghost function View(): Station
      reads this, db
    {
      Station(db.View(), accepted, Idle, topic)
    }

    /** The gateway's `Publish`: one record per event, all of them produced before it succeeds. */
    method Produce(events: seq<Row>, reached: nat) returns (ok: bool)
      modifies this`topic
      ensures topic == old(topic) + events[..Min(reached, |events|)]
      ensures ok <==> |events| <= reached
    {
      var records: seq<Row> := [];
      for i := 0 to |events|
        invariant records == events[..i]
      {
        records := records + [events[i]];
      }
      assert records == events;
      topic := topic + records[..Min(reached, |records|)];
      ok := |records| <= reached;
    }

    /** One round; None is the exception a failed or unanswered post raises. */
    method PublishOnce(limit: int, reached: nat, answered: bool) returns (n: Option<nat>)
      modifies this`topic, db
      ensures View() == DoAll(old(View()), CallSteps(Batch(old(db.View()), limit), limit, reached, answered))
      ensures n == Some(0) <==> Batch(old(db.View()), limit) == []
      ensures n.Some? && n.value > 0 ==>
                n.value == |Batch(old(db.View()), limit)| &&
                db.View() == Acked(old(db.View()), Batch(old(db.View()), limit))
      ensures n == None ==> db.View() == old(db.View())
      ensures n == None <==>
                Batch(old(db.View()), limit) != [] && !(answered && |Batch(old(db.View()), limit)| <= reached)
      ensures var batch := Batch(old(db.View()), limit);
              topic == old(topic) + if reached < |batch| then batch[..reached] else batch
    {
      ghost var s := View();
      var batch := db.NextBatch(limit);
      CallEffect(s, limit, reached, answered);
      if batch == [] {
        return Some(0);
      }
      var ok := Produce(batch, reached);
      if !ok || !answered {
        return None;
      }
      db.Ack(batch);
      n := Some(|batch|);
    }
  }

  lemma PostEffect(s: Station, limit: int, k: nat)
    requires s.phase == Idle && Batch(s.table, limit) != [] && k <= |Batch(s.table, limit)|
    ensures var batch := Batch(s.table, limit);
            DoAll(s, [Read(limit)] + Produces(k)) == s.(phase := Posting(batch, k), topic := s.topic + batch[..k])
  {
    hide Batch;
    DoAllSnoc(s, [], Read(limit));
    assert DoAll(s, []) == s && [] + [Read(limit)] == [Read(limit)];
    DoProduces(Do(s, Read(limit)), k);
    DoAllConcat(s, [Read(limit)], Produces(k));
  }

  lemma AnsweredEffect(s: Station, limit: int)
    requires s.phase == Idle && Batch(s.table, limit) != []
    ensures var batch := Batch(s.table, limit);
            DoAll(s, [Read(limit)] + Produces(|batch|) + [Reply, Ack])
              == s.(topic := s.topic + batch, table := Acked(s.table, batch))
  {
    hide Batch, Acked;
    var batch := Batch(s.table, limit);
    var steps := [Read(limit)] + Produces(|batch|);
    PostEffect(s, limit, |batch|);
    hide DoAll;
    assert batch[..|batch|] == batch;
    DoAllSnoc(s, steps, Reply);
    DoAllSnoc(s, steps + [Reply], Ack);
    assert steps + [Reply] + [Ack] == steps + [Reply, Ack];
  }

  lemma FailedEffect(s: Station, limit: int, k: nat)
    requires s.phase == Idle && Batch(s.table, limit) != [] && k <= |Batch(s.table, limit)|
    ensures DoAll(s, [Read(limit)] + Produces(k) + [Fail]) == s.(topic := s.topic + Batch(s.table, limit)[..k])
  {
    hide Batch;
    PostEffect(s, limit, k);
    DoAllSnoc(s, [Read(limit)] + Produces(k), Fail);
    hide DoAll;
  }

  lemma CallEffect(s: Station, limit: int, reached: nat, answered: bool)
    requires s.phase == Idle
    ensures var batch := Batch(s.table, limit);
            var r := DoAll(s, CallSteps(batch, limit, reached, answered));
            if batch == [] then r == s
            else if answered && |batch| <= reached then
              r == s.(topic := s.topic + batch, table := Acked(s.table, batch))
            else r == s.(topic := s.topic + batch[..Min(reached, |batch|)])
  {
    hide Batch, Acked;
    if Batch(s.table, limit) == [] {
      DoAllSnoc(s, [], Read(limit));
      assert DoAll(s, []) == s && [] + [Read(limit)] == [Read(limit)];
    } else {
      hide Do, DoAll, Produces;
      if answered && |Batch(s.table, limit)| <= reached {
        AnsweredEffect(s, limit);
      } else {
        FailedEffect(s, limit, Min(reached, |Batch(s.table, limit)|));
      }
    }
  }
}
