/**
 * The state the room manager owns and the values exchanged with it
 * (signaling/types.go, in the shape signaling/room_managers.go uses it:
 * members are keyed by user id and a connection carries a display name).
 */
module Rooms {
  import opened Wrappers
  import opened Protocol
  import Database

  type UserId = string
  type RoomId = string

  /** Most active members a room admits. */
  const Capacity: nat := 4

  /**
   * A client connection. `id` is the identity of the connection object
   * itself, which Go compares by pointer; two connections may claim the same
   * user id.
   */
  datatype Conn = Conn(id: nat, userId: UserId, displayName: string)

  /** A room: active members and waiting joiners, each keyed by user id. */
  datatype Room = Room(
    roomId: RoomId,
    isLocked: bool,
    owner: Option<Conn>,
    users: map<UserId, Conn>,
    waitUsers: map<UserId, Conn>)

  /** All live rooms, keyed by room id. */
  type Registry = map<RoomId, Room>

  /** A connection pump's local view: its connection, the room it named last, and whether it claimed ownership. */
  datatype User = User(conn: Conn, roomId: RoomId, isOwner: bool)

  /** The four kinds of request the room manager consumes. */
  datatype Event =
    | Register(user: User)
    | Unregister(user: User, scope: Scope)
    | Forward(roomId: RoomId, msg: Message)
    | Admit(userId: UserId, action: string, roomId: RoomId)

  /** The answer of the room store to a register request's lookup. */
  datatype Lookup = Found(isLocked: bool) | Failed(error: Database.DbError)

  /** What the room manager does to connections: queue a message, or close the queue. */
  datatype Effect = Send(to: Conn, msg: Message) | Close(conn: Conn)

  /**
   * The registry and effects after one event, or the nil owner dereference
   * that ends the process. A second close of a queue, or a send on a closed
   * one, also panics in Go; those show in the effects and are not `Panic`.
   */
  datatype Turn = Next(rooms: Registry, effects: seq<Effect>) | Panic

  /** Every key of `m` is the user id of the connection stored under it. */
  ghost predicate KeyedByUserId(m: map<UserId, Conn>) {
    forall k :: k in m ==> m[k].userId == k
  }

  /**
   * The shape every live room keeps: at most four members, not empty, keyed
   * consistently, and with an empty waiting list unless the room is locked.
   */
  ghost predicate ValidRoom(room: Room) {
    && |room.users| <= Capacity
    && (|room.users| > 0 || |room.waitUsers| > 0)
    && KeyedByUserId(room.users)
    && KeyedByUserId(room.waitUsers)
    && (!room.isLocked ==> room.waitUsers == map[])
  }

  /** Every room of the registry is valid and stored under its own id. */
  ghost predicate Inv(rooms: Registry) {
    forall id :: id in rooms ==> rooms[id].roomId == id && ValidRoom(rooms[id])
  }

  /** No user id is at once an active member and waiting, in any room. */
  ghost predicate Disjoint(rooms: Registry) {
    forall id :: id in rooms ==> rooms[id].users.Keys !! rooms[id].waitUsers.Keys
  }

  /** The connections a room holds, as members or as waiting joiners. */
  ghost predicate Holds(room: Room, c: Conn) {
    c in room.users.Values || c in room.waitUsers.Values
  }
}
