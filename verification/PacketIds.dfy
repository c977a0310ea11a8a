/** Packet identifiers (section 2.3.1 of MQTT 3.1.1). */
module PacketIds {
  import opened Prelude

  const MAX_PACKET_ID: nat := 65535

  /** A packet identifier is never zero. */
  type PacketId = x: int | 1 <= x <= 65535 witness 1

  function NextId(current: PacketId): (r: PacketId) {
    if current == MAX_PACKET_ID then 1 else current + 1
  }

  /** `ids` are the ids handed out so far, each the successor of the one before; the first follows
      the initial value 1, and `current` is the latest value of the counter. */
  ghost predicate FollowsCounter(ids: seq<PacketId>, current: PacketId)
    decreases |ids|
  {
    if |ids| == 0 then current == 1
    else
      && current == ids[|ids| - 1]
      && exists before: PacketId :: current == NextId(before) && FollowsCounter(ids[..|ids| - 1], before)
  }

  lemma HandOut(ids: seq<PacketId>, current: PacketId)
    requires FollowsCounter(ids, current)
    ensures FollowsCounter(ids + [NextId(current)], NextId(current))
  {
    var more := ids + [NextId(current)];
    assert more[..|more| - 1] == ids;
  }

  // ---------- Which ids those are ----------

  /** The id field after `k` ids have been handed out. */
  function IdAfter(k: nat): (r: PacketId) {
    k % MAX_PACKET_ID + 1
  }

  lemma NextIdIsIdAfter(k: nat)
    ensures NextId(IdAfter(k)) == IdAfter(k + 1)
  {
    var q, r := k / MAX_PACKET_ID, k % MAX_PACKET_ID;
    assert k + 1 == q * MAX_PACKET_ID + (r + 1);
    if r + 1 == MAX_PACKET_ID {
      assert k + 1 == (q + 1) * MAX_PACKET_ID;
      assert (k + 1) % MAX_PACKET_ID == 0;
    } else {
      assert (k + 1) % MAX_PACKET_ID == r + 1;
    }
  }

  /** The k-th id handed out, counting from 1, is k mod 65535 plus 1. */
  lemma {:induction false} IdsAreIdAfter(ids: seq<PacketId>, current: PacketId)
    requires FollowsCounter(ids, current)
    ensures current == IdAfter(|ids|)
    ensures forall k | 0 <= k < |ids| :: ids[k] == IdAfter(k + 1)
    decreases |ids|
  {
    if |ids| > 0 {
      var front := ids[..|ids| - 1];
      var before: PacketId :| current == NextId(before) && FollowsCounter(front, before);
      IdsAreIdAfter(front, before);
      NextIdIsIdAfter(|front|);
      forall k | 0 <= k < |ids| ensures ids[k] == IdAfter(k + 1) {
        if k < |front| {
          assert ids[k] == front[k];
        }
      }
    }
  }

  /** Two ids are equal exactly when a multiple of 65535 hand-outs lies between them; in particular
      any 65535 consecutive ids are pairwise distinct. */
  lemma IdsRepeatWithFullPeriodOnly(ids: seq<PacketId>, current: PacketId, i: nat, j: nat)
    requires FollowsCounter(ids, current) && i < j < |ids|
    ensures ids[i] == ids[j] <==> (j - i) % MAX_PACKET_ID == 0
    ensures j - i < MAX_PACKET_ID ==> ids[i] != ids[j]
  {
    IdsAreIdAfter(ids, current);
    SameRemainder(i + 1, j + 1);
  }

  lemma SameRemainder(a: nat, b: nat)
    requires a < b
    ensures a % MAX_PACKET_ID == b % MAX_PACKET_ID <==> (b - a) % MAX_PACKET_ID == 0
  {
    var qa, qb, q := a / MAX_PACKET_ID, b / MAX_PACKET_ID, (b - a) / MAX_PACKET_ID;
    assert a == 65535 * qa + a % MAX_PACKET_ID;
    assert b == 65535 * qb + b % MAX_PACKET_ID;
    assert b - a == 65535 * q + (b - a) % MAX_PACKET_ID;
  }
}
