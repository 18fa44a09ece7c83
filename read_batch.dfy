/** `ReadBatch`: the pending read acknowledgements of one user in one room. */
module ReadBatches {
  import opened Lists

  class ReadBatch {
    const roomId: string
    const userId: string
    /** The pending message ids; a set, so repeated ids collapse. */
    var messageIds: set<string>

    constructor (roomId: string, userId: string)
      ensures this.roomId == roomId && this.userId == userId
      ensures messageIds == {}
    {
      this.roomId := roomId;
      this.userId := userId;
      messageIds := {};
    }

    /** `add`: the pending set becomes its union with `ids`. */
    method Add(ids: seq<string>)
      modifies this
      ensures messageIds == old(messageIds) + Elements(ids)
      ensures (forall id :: id in ids ==> id in old(messageIds)) ==> Size() == old(Size())
      ensures old(messageIds) <= messageIds
    {
      messageIds := messageIds + Elements(ids);
      assert (forall id :: id in ids ==> id in old(messageIds)) ==> messageIds == old(messageIds);
    }

    /** `size`. */
    function Size(): nat
      reads this
    {
      |messageIds|
    }

    /** `getMessageIds`: the live set, so it reflects every later `Add`. */
    function GetMessageIds(): set<string>
      reads this
    {
      messageIds
    }

    /** `drain`: hands out every pending id once and empties the batch. */
    method Drain() returns (list: seq<string>)
      modifies this
      ensures forall id :: id in list <==> id in old(messageIds)
      ensures Distinct(list) && |list| == old(Size())
      ensures messageIds == {}
    {
      list := CopyToList(messageIds);
      messageIds := {};
    }
  }
}
