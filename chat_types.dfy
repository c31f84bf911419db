/**
 * The entities the chat widget passes around. Dates are integer milliseconds
 * since the epoch; optional properties are `Option`s.
 */
module ChatTypes {
  import opened Wrappers

  datatype MessageStatus = Sending | Sent | Delivered | Read | Failed

  /** The `type` property of a message. */
  datatype MessageKind = TextKind | ImageKind | FileKind | SystemKind

  datatype ChatUser = ChatUser(
    id: string,
    name: string,
    avatar: Option<string>,
    isOnline: Option<bool>,
    lastSeen: Option<int>)

  datatype Message = Message(
    id: string,
    conversationId: string,
    senderId: string,
    content: string,
    timestamp: int,
    status: MessageStatus,
    kind: MessageKind)

  datatype Conversation = Conversation(
    id: string,
    title: string,
    participants: seq<ChatUser>,
    lastMessage: Option<Message>,
    unreadCount: int,
    createdAt: int,
    updatedAt: int,
    isGroup: bool,
    avatar: Option<string>)

  /** The options of the chat hook, as the caller passes them (unset options are `None`). */
  datatype ChatConfig = ChatConfig(
    wsUrl: string,
    userId: string,
    token: Option<string>,
    autoReconnect: Option<bool>,
    reconnectInterval: Option<int>,
    maxReconnectAttempts: Option<int>,
    pageSize: Option<int>)
}
