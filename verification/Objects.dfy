/** Options, results and bytes, and the kernel objects, rights and errors of the IPC model. */
module Objects {

  datatype Option<+T> = None | Some(value: T)

  datatype Result<+T, +E> = Ok(value: T) | Err(error: E)

  type u8 = x: int | 0 <= x < 0x100
  type u32 = x: int | 0 <= x < 0x1_0000_0000

  /** The identity behind an `Arc<KernelObject>`. A channel has exactly two endpoint
      objects, one per side; every further reference to them is a clone. */
  datatype Object =
    | Endpoint(channel: nat, side: nat)
    | Other(id: nat)

  datatype Right =
    | READ | WRITE | WAIT | SIGNAL | DUPLICATE | TRANSFER | MAP | MANAGE
    | INSPECT | TERMINATE | EXECUTE | SCHEDULE | Unnamed(bit: nat)

  type Rights = set<Right>

  const CHANNEL_DEFAULT_RIGHTS: Rights := {READ, WRITE, WAIT, DUPLICATE, TRANSFER}

  datatype HandleEntry = HandleEntry(obj: Object, rights: Rights)

  datatype IpcError =
    | InvalidHandle | WrongObjectType | AccessDenied | InvalidRights | DuplicateHandle
    | CyclicTransfer | MessageTooLarge | HandleTableFull | WaiterLimit | InvalidMessage
    | OutOfMemory | ShouldWait | PeerClosed | BufferTooSmall(byteCount: nat, handleCount: nat)

  /** A fallible allocation: it may fail at any time and changes nothing. */
  method TryAllocate() returns (ok: bool)
  {
    ok := *;
  }
}
