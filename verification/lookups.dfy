/**
 * How a register request consults the room store before the room manager
 * acts (signaling/room_managers.go lines 53 and 156): an owner claim reads
 * the room from the claimant's own user record, a join reads it from any
 * record that lists the room id.
 */
module Lookups {
  import opened Wrappers
  import Database
  import opened Protocol
  import opened Rooms
  import opened Actor

  /** The room-store answer a register request acts on. */
  ghost function RegisterLookup(store: Database.Store, user: User): (r: Lookup)
    ensures user.isOwner ==>
              (r.Found? <==> user.conn.userId != "" && user.conn.userId in store &&
                             Database.HasRoom(store[user.conn.userId].rooms, user.roomId))
    ensures !user.isOwner ==> (r.Found? <==> user.roomId != "" && Database.RoomTaken(store, user.roomId))
    ensures r.Failed? ==> r.error.Failure?
  {
    var found := if user.isOwner then Database.GetUserRoom(store, user.conn.userId, user.roomId)
                 else Database.GetRoom(store, user.roomId);
    match found
    case Ok(room) => Found(room.isLocked)
    case Err(e) => Failed(e)
  }

  /**
   * The store never answers with its NotFound or InvalidRequest sentinel, so
   * the two translations of lines 55-58 and 160-163 never fire: a failed
   * lookup is always reported with the store's own error.
   */
  lemma SentinelTranslationsUnreachable(store: Database.Store, user: User)
    ensures var r := RegisterLookup(store, user);
      r.Failed? ==> LookupError(r.error) == Store(r.error) && LookupError(r.error) != NotFound &&
                    LookupError(r.error) != BadMessage
  {
  }

  /**
   * An owner claim for a room the claimant's record does not list is
   * answered with one ERROR and changes no room, whether or not the room is
   * live.
   */
  lemma ClaimOfUnlistedRoomRefused(rooms: Registry, store: Database.Store, user: User)
    requires user.isOwner
    requires user.conn.userId !in store || !Database.HasRoom(store[user.conn.userId].rooms, user.roomId)
    ensures var t := Step(rooms, Register(user), RegisterLookup(store, user));
      && t.Next? && t.rooms == rooms && |t.effects| == 1
      && t.effects[0].Send? && t.effects[0].to == user.conn && t.effects[0].msg.action == ERROR
  {
  }

  /**
   * The lock flag a joiner's fresh shadow room gets is the flag of a room
   * record some user holds under that id.
   */
  lemma ShadowLockFromStore(store: Database.Store, user: User)
    requires !user.isOwner && RegisterLookup(store, user).Found?
    ensures exists u, room :: u in store && room in store[u].rooms && room.roomId == user.roomId &&
                              room.isLocked == RegisterLookup(store, user).isLocked
  {
    var room := Database.GetRoom(store, user.roomId).value;
    assert room.roomId == user.roomId;
    var u :| u in store && room in store[u].rooms;
  }
}
