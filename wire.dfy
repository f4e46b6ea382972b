/** Values exchanged between the chat client and the chat server.

    On the wire every value is a JSON object; here each one is a datatype
    value, already decoded. A missing `room` or `args` field of a COMMAND
    request is represented by "" and [] respectively (the server treats both
    the same way as a missing field: they are falsy). */
module Wire {

  /** A live TCP connection, identified by an opaque number. */
  type ConnId = nat

  datatype Option<T> = None | Some(value: T)

  /** One message kept in a room's history: `{sender, text}`. */
  datatype Entry = Entry(sender: string, text: string)

  /** A request as the server's data handler sees it after `JSON.parse`. */
  datatype Request =
    | Malformed                                          // JSON.parse threw
    | Auth(action: string, username: string, password: string)
    | Command(command: string, room: string, args: seq<string>)
    | Message(text: string)
    | PrivateMessage(recipient: string, text: string)
    | FileUpload(filename: string, data: string)         // data: base64 text, kept as is
    | FileDownload(filename: string)
    | Other(kind: string)                                // any other `type`, e.g. SEND_FILE

  /** A response written by the server to one connection. */
  datatype Response =
    | AuthReply(status: string, message: string)         // AUTH {status, message}
    | Chat(sender: string, text: string)                 // MESSAGE
    | Private(sender: string, recipient: string, text: string)  // PRIVATE_MESSAGE
    | UserList(users: seq<string>)                       // USERS
    | WhoReply(members: seq<string>, current: Option<string>) // WHO (room null when None)
    | RoomList(rooms: set<string>)                       // ROOMS
    | RoomNotice(message: string)                        // ROOM
    | History(room: string, history: seq<Entry>)         // ROOM_HISTORY
    | JoinRequest(room: string, username: string)        // ROOM_JOIN_REQUEST
    | UploadAck(filename: string)                        // FILE_UPLOAD_ACK
    | UploadFail(filename: string, message: string)      // FILE_UPLOAD_FAIL
    | Download(filename: string, data: string)           // FILE_DOWNLOAD
    | DownloadFail(filename: string, message: string)    // FILE_DOWNLOAD_FAIL
    | RawText(text: string)                              // a plain, non-JSON write

  /** One `socket.write`: which connection, and what was written to it. */
  datatype Delivery = Delivery(to: ConnId, response: Response)
}
