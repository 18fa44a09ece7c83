/**
 * Cross-node fan-out.  Publishing appends one event to the shared channel;
 * every node's subscriber decodes what arrives and hands it to the local
 * members of the event's room.  Serialisation is an abstract pair of
 * functions, decoding being partial.
 */
module Broadcast {
  import opened Wrappers
  import opened Domain
  import opened Transport

  /** `RedisBroadcastService`: the shared channel is the only delivery path. */
  class RedisBroadcastService {
    /** Every event published on the shared channel, in order. */
    var channel: seq<BroadcastEvent>

    constructor ()
      ensures channel == []
    {
      channel := [];
    }

    /** The four-argument `broadcastToRoom`: builds the event and publishes it once. */
    method BroadcastToRoom(eventType: string, roomId: string, socketEvent: SocketEvent, payload: Payload)
      modifies this
      ensures channel == old(channel) + [BroadcastEvent(eventType, roomId, socketEvent, payload)]
    {
      var event := BroadcastEvent(eventType, roomId, socketEvent, payload);
      channel := channel + [event];
    }

    /** The three-argument `broadcastToRoom`: the same with the plain message type. */
    method BroadcastMessageToRoom(roomId: string, socketEvent: SocketEvent, payload: Payload)
      modifies this
      ensures channel == old(channel) + [BroadcastEvent(TYPE_MESSAGE, roomId, socketEvent, payload)]
    {
      BroadcastToRoom(TYPE_MESSAGE, roomId, socketEvent, payload);
    }
  }

  /** What one received channel message turns into on a node, if anything. */
  function DeliveryOf(message: string, decode: string -> Option<BroadcastEvent>): (d: Option<RoomDelivery>)
    ensures d.Some? <==> decode(message).Some?
    ensures d.Some? ==>
      && d.value.roomId == decode(message).value.roomId
      && d.value.event == decode(message).value.socketEvent
      && d.value.payload == decode(message).value.payload
  {
    match decode(message)
    case None => None
    case Some(e) => Some(RoomDelivery(e.roomId, e.socketEvent, e.payload))
  }

  /**
   * Whatever is published reaches every node's room group unchanged, given
   * that decoding inverts encoding.
   */
  lemma FanOutPreservesEvent(e: BroadcastEvent, encode: BroadcastEvent -> string, decode: string -> Option<BroadcastEvent>)
    requires decode(encode(e)) == Some(e)
    ensures DeliveryOf(encode(e), decode) == Some(RoomDelivery(e.roomId, e.socketEvent, e.payload))
  {
  }

  /** `RedisMessageSubscriber`: decodes and delivers to the local room group. */
  class RedisMessageSubscriber {
    const server: SocketServer

    constructor (server: SocketServer)
      ensures this.server == server
    {
      this.server := server;
    }

    /**
     * `onMessage`: an undecodable message or a failing send is logged and
     * dropped; nothing is ever thrown.  `sendFails` stands for a failure of
     * the local send.
     */
    method OnMessage(message: string, decode: string -> Option<BroadcastEvent>, sendFails: bool)
      modifies server
      ensures server.clients == old(server.clients)
      ensures decode(message).None? || sendFails ==> server.deliveries == old(server.deliveries)
      ensures decode(message).Some? && !sendFails ==>
        server.deliveries == old(server.deliveries) + [DeliveryOf(message, decode).value]
    {
      var event := decode(message);
      if event.None? {
        return;
      }
      if sendFails {
        return;
      }
      var e := event.value;
      server.deliveries := server.deliveries + [RoomDelivery(e.roomId, e.socketEvent, e.payload)];
    }
  }
}
