/** Command ids: minted by oxf_host_create_queue (transport/ox-fabrics/ox-host.c), cut to the 16 bits
    of the command's field, and taken apart again by the target (transport/ox-fabrics/ox-fabrics.c,
    core/nvmef_ctrl.c) and by the host's receive function. */
module CommandIds {
  import opened Arithmetic

  const QUEUE_SIZE: nat := 2047
  const MAX_QUEUES: nat := 64

  /** The id of a slot as it travels. */
  function Cid(qid: nat, slot: nat): (cid: nat)
    ensures cid < 0x1_0000
  {
    (qid * QUEUE_SIZE + slot) % 0x1_0000
  }

  /** The queue the target takes the command to belong to, which it also writes into the reply. */
  function QueueOf(cid: nat): nat { cid / QUEUE_SIZE }

  /** The slot the host takes a reply to belong to. */
  function SlotOf(cid: nat): nat { cid % QUEUE_SIZE }

  ghost predicate Decodes(qid: nat, slot: nat) {
    QueueOf(Cid(qid, slot)) == qid && SlotOf(Cid(qid, slot)) == slot
  }

  /** An id comes back to its own queue and slot exactly when it was not cut. */
  lemma DecodesIff(qid: nat, slot: nat)
    requires qid < MAX_QUEUES && slot < QUEUE_SIZE
    ensures Decodes(qid, slot) <==> qid * QUEUE_SIZE + slot < 0x1_0000
  {
    var n := qid * QUEUE_SIZE + slot;
    if n < 0x1_0000 {
      DivModUnique(n, QUEUE_SIZE, qid, slot);
    } else if Decodes(qid, slot) {
      DivMod(Cid(qid, slot), QUEUE_SIZE);
    }
  }

  /** Every slot of a queue is safe exactly for queue ids up to 31. */
  lemma QueueSafeIff(qid: nat)
    requires qid < MAX_QUEUES
    ensures (forall slot :: 0 <= slot < QUEUE_SIZE ==> Decodes(qid, slot)) <==> qid <= 31
  {
    forall slot | 0 <= slot < QUEUE_SIZE ensures qid <= 31 ==> Decodes(qid, slot) {
      DecodesIff(qid, slot);
    }
    if 32 <= qid {
      DecodesIff(qid, QUEUE_SIZE - 1);
    }
  }

  /** Up to there no two commands share an id, so a reply never reaches another command. */
  lemma CidsDistinct(qid: nat, slot: nat, qid': nat, slot': nat)
    requires qid <= 31 && qid' <= 31 && slot < QUEUE_SIZE && slot' < QUEUE_SIZE
    requires Cid(qid, slot) == Cid(qid', slot')
    ensures qid == qid' && slot == slot'
  {
    DecodesIff(qid, slot);
    DecodesIff(qid', slot');
  }

  /** Beyond it some do: slot 32 of queue 32 has the id of slot 0 of the admin queue. */
  lemma CidsCollide()
    ensures Cid(32, 32) == Cid(0, 0)
  {
  }
}
