/** src/drv/install_monitor.cc: the driver's side of one event, from the two strings to the message that
    is handed to the channel. */
module Producer {
  import opened Channel
  import opened WideStrings
  import opened Ioctls
  import opened Wire
  import Calls = AtomicCalls

  /** The message in a buffer; its id says which allocation it is. */
  function MessageOf(id: nat, image: WString, path: WString): Msg {
    Msg(id, 6 + 2 * (|image| + |path|))
  }

  /** The caller's half of SendMessage: a refused message is released. */
  method Post(ioctl: Ioctl, msg: Msg, allocOk: bool) returns (accepted: bool)
    requires ioctl.Valid()
    modifies ioctl.Footprint()
    ensures ioctl.Valid() && fresh(ioctl.Footprint() - old(ioctl.Footprint()))
    ensures (ioctl.Abs(), accepted) == Calls.Send(old(ioctl.Abs()), msg, allocOk)
  {
    accepted := ioctl.SendMessage(msg, allocOk);
    if !accepted { ioctl.CleanupPendingData(msg, Refused); }
  }

  /** The header of eight bytes holds the size that the channel goes by; behind it comes an encoded event,
      with the type at its byte 4. */
  ghost predicate HoldsMessage(buffer: array<Byte>, kind: Byte, image: WString, path: WString)
    reads buffer
  {
    && buffer.Length == 8 + 6 + 2 * (|image| + |path|)
    && buffer[..8] == SizeBytes(6 + 2 * (|image| + |path|), 8)
    && buffer[12] == kind && Encode(kind, image, path) <= buffer[8..]
  }

  method Build(kind: Byte, image: WString, path: WString, buildOk: bool) returns (buffer: array?<Byte>)
    ensures buffer == null <==> !buildOk
    ensures buffer != null ==> fresh(buffer) && HoldsMessage(buffer, kind, image, path)
  {
    buffer := BuildInstallInfo(kind, image, path, buildOk);
    if buffer != null {
      HeaderLayout(kind, image, path);
      assert buffer[8..][..buffer.Length - 9] == buffer[8..buffer.Length - 1];
    }
  }

  method HandOver(ioctl: Ioctl, buffer: array<Byte>, ghost kind: Byte, id: nat, image: WString, path: WString,
                  allocOk: bool)
    requires ioctl.Valid() && buffer !in ioctl.Footprint() && HoldsMessage(buffer, kind, image, path)
    modifies ioctl.Footprint()
    ensures ioctl.Valid() && HoldsMessage(buffer, kind, image, path)
    ensures ioctl.Abs() == Calls.Send(old(ioctl.Abs()), MessageOf(id, image, path), allocOk).0
  {
    ghost var held := buffer[..];
    var _ := Post(ioctl, MessageOf(id, image, path), allocOk);
    assert buffer[..] == held;
  }

  /** FileInstall: a message of type 0.  `buildOk` and `allocOk` tell whether the message and its list
      node can be allocated. */
  method FileInstall(ioctl: Ioctl, id: nat, image: WString, path: WString, buildOk: bool, allocOk: bool)
    returns (buffer: array?<Byte>)
    requires ioctl.Valid()
    modifies ioctl.Footprint()
    ensures ioctl.Valid()
    ensures buffer == null <==> !buildOk
    ensures buffer == null ==> ioctl.Abs() == old(ioctl.Abs())
    ensures buffer != null ==>
              && HoldsMessage(buffer, 0, image, path)
              && ioctl.Abs() == Calls.Send(old(ioctl.Abs()), MessageOf(id, image, path), allocOk).0
  {
    ghost var d := ioctl.Abs();
    buffer := Build(0, image, path, buildOk);
    if buffer == null { return; }
    assert ioctl.Valid() && ioctl.Abs() == d;
    HandOver(ioctl, buffer, 0, id, image, path, allocOk);
  }

  /** RegistryInstall: a message of type 1. */
  method RegistryInstall(ioctl: Ioctl, id: nat, image: WString, path: WString, buildOk: bool, allocOk: bool)
    returns (buffer: array?<Byte>)
    requires ioctl.Valid()
    modifies ioctl.Footprint()
    ensures ioctl.Valid()
    ensures buffer == null <==> !buildOk
    ensures buffer == null ==> ioctl.Abs() == old(ioctl.Abs())
    ensures buffer != null ==>
              && HoldsMessage(buffer, 1, image, path)
              && ioctl.Abs() == Calls.Send(old(ioctl.Abs()), MessageOf(id, image, path), allocOk).0
  {
    ghost var d := ioctl.Abs();
    buffer := Build(1, image, path, buildOk);
    if buffer == null { return; }
    assert ioctl.Valid() && ioctl.Abs() == d;
    HandOver(ioctl, buffer, 1, id, image, path, allocOk);
  }
}
