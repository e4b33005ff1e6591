/** The events the server pushes to clients. Fan-out itself is not modelled:
    an emitted event is recorded with the audience the code addresses it to. */
module Events {
  import opened Base
  import opened Messages

  /** Who an emit is addressed to. */
  datatype Target =
    | AllExcept(sender: SocketId)                  // socket.broadcast.emit
    | ToRoom(room: RoomId)                         // io.to(room).emit
    | ToRoomExcept(room: RoomId, sender: SocketId)  // socket.to(room).emit
    | ToSocket(socket: SocketId)                   // socket.emit / io.to(socketId).emit

  /** One row of the `online-users-list` snapshot. */
  datatype OnlineUser = OnlineUser(userId: UserId, userName: string, lastActivity: nat)

  datatype Payload =
    | UserOnline(userId: UserId, userName: string)
    | UserOffline(userId: UserId)
    | OnlineUsersList(users: set<OnlineUser>)
    | UserTyping(userId: UserId, userName: string, chatId: RoomId)
    | UserStoppedTyping(userId: UserId, chatId: RoomId)
    | UserActivity(userId: UserId, timestamp: nat)
    | PrivateChatStarted(roomId: RoomId, initiatorId: UserId, initiatorName: string)
    | NewMessage(message: Message)
    | MessageRead(messageId: MessageId, userId: UserId)
    /** `message-status-updated`; the flags say which of `delivered: true`
        and `read: true` the payload carries. */
    | StatusUpdated(messageId: MessageId, delivered: bool, read: bool, at: nat)
    | ReactionAdded(messageId: MessageId, emoji: string, userId: UserId, userName: string)

  datatype Emit = Emit(target: Target, payload: Payload)
}
