/** The messages of the chat protocol, by the fields the server reads or writes. */
module Protocol {
  import opened Crypto

  // Message kinds are an open enumeration: any integer may arrive and is stored as it is.
  const TEXT := 0
  const IMAGE := 1
  const FILE := 2

  predicate IsFileKind(kind: int) {
    kind == IMAGE || kind == FILE
  }

  datatype RawMessage = RawMessage(from: int, to: int, kind: int, content: string)

  datatype Message = Message(raw: RawMessage, id: int, timestamp: int, internalId: int)

  datatype File = File(name: string, content: seq<Byte>)

  // Every contact is listed as an online friend; only id and name vary.
  datatype Contact = Contact(id: int, name: string)

  /** What the keep-alive channel of a user carries. */
  datatype Packet =
    | ContactListRequest(contacts: seq<Contact>, internalIds: seq<int>)
    | ContactMessageListRequest(messages: seq<Message>)

  // `Ignored` stands for deletions, unknown kinds, and bytes that do not parse.
  datatype Request =
    | Ignored
    | ServerStatusRequest
    | ServerStatusUpdateRequest
    | RegisterRequest(username: string, rawPassword: string)
    | LoginPreRequest(username: string)
    | LoginRequest(username: string, hashPassword: string)
    | SetupChannelRequest(token: string)
    | SendMessageRequest(token: string, message: RawMessage)
    | FileUploadRequest(token: string, id: string, file: File, hash: string)
    | FileDownloadRequest(token: string, id: string)
    | ContactMessageRequest(token: string, contact: int, internalId: int)

  datatype Reply =
    | NoReply
    | ServerStatusResponse(online: bool, registrable: bool)
    | ServerStatusUpdateResponse(online: bool, registrable: bool)
    | RegisterResponse(success: bool)
    | LoginPreResponse(challenge: string)
    | LoginResponse(logined: bool, id: int, token: string)
    | ServerAckResponse
    | SendMessageResponse(message: Message)
    | FileUploadResponse(success: bool)
    | FileDownloadResponse(file: File, hash: string)
    | ContactMessageResponse(message: Message)

  // What is found for a file that has no message waiting.
  const NO_DEFERRED := Message(RawMessage(0, 0, TEXT, ""), 0, 0, 0)

  // The reply that stands for failure: only its id is set.
  const NO_MESSAGE := Message(RawMessage(0, 0, TEXT, ""), -1, 0, 0)
}
