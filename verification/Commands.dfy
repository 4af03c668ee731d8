/** The command and its reply, each of one fixed size. */
module Commands {
  import opened Sequences
  import opened Utf8
  import opened Wire
  import opened ServiceSpec
  import opened Wrappers

  const COMMAND_SIZE := 65
  const REPLY_SIZE := 128
  const NAME_SIZE := 32
  const ARGS_SIZE := 32
  const REPLY_TEXT_SIZE := 94

  datatype CommandMessage = CommandMessage(command: Byte, serviceName: Bytes, args: Bytes)

  datatype CommandReply = CommandReply(command: Byte, result: CommandResult, serviceName: Bytes, message: Bytes)

  function ResultByte(result: CommandResult): Byte {
    match result
    case Ok => 0
    case UnknownService => 1
    case UnknownCommand => 2
    case Malformed => 3
    case AlreadyInState => 4
    case InvalidState => 5
    case LaunchFailed => 6
    case ShuttingDown => 7
    case ReloadFailed => 8
  }

  function ResultFromByte(value: Byte): CommandResult {
    if value == 0 then Ok
    else if value == 1 then UnknownService
    else if value == 2 then UnknownCommand
    else if value == 4 then AlreadyInState
    else if value == 5 then InvalidState
    else if value == 6 then LaunchFailed
    else if value == 7 then ShuttingDown
    else if value == 8 then ReloadFailed
    else Malformed
  }

  function CommandBytes(m: CommandMessage): (a: Bytes)
    ensures |a| == COMMAND_SIZE
  {
    ToBytes(m.command, 1) + TextField(m.serviceName, NAME_SIZE) + TextField(m.args, ARGS_SIZE)
  }

  function ReplyBytes(r: CommandReply): (a: Bytes)
    ensures |a| == REPLY_SIZE
  {
    ToBytes(r.command, 1) + ToBytes(ResultByte(r.result), 1) + TextField(r.serviceName, NAME_SIZE)
      + TextField(r.message, REPLY_TEXT_SIZE)
  }

  method EncodeCommand(message: CommandMessage) returns (payload: Bytes)
    ensures payload == CommandBytes(message)
  {
    hide Filled, Put, TextField, ToBytes;
    var writer := new WireWriter(COMMAND_SIZE);
    NothingFilled(COMMAND_SIZE);
    writer.PutU8(0, message.command);
    assert [] + ToBytes(message.command, 1) == ToBytes(message.command, 1);
    writer.PutText(1, NAME_SIZE, message.serviceName);
    writer.PutText(33, ARGS_SIZE, message.args);
    FilledWhole(writer.bytes[..], CommandBytes(message));
    payload := writer.TakeBytes();
  }

  method EncodeReply(reply: CommandReply) returns (payload: Bytes)
    ensures payload == ReplyBytes(reply)
  {
    hide Filled, Put, TextField, ToBytes;
    var writer := new WireWriter(REPLY_SIZE);
    NothingFilled(REPLY_SIZE);
    writer.PutU8(0, reply.command);
    assert [] + ToBytes(reply.command, 1) == ToBytes(reply.command, 1);
    writer.PutU8(1, ResultByte(reply.result));
    writer.PutText(2, NAME_SIZE, reply.serviceName);
    writer.PutText(34, REPLY_TEXT_SIZE, reply.message);
    FilledWhole(writer.bytes[..], ReplyBytes(reply));
    payload := writer.TakeBytes();
  }

  /** None stands for a payload of the wrong size. */
  function DecodeCommand(payload: Bytes): Option<CommandMessage> {
    if |payload| != COMMAND_SIZE then None
    else
      var reader := WireReader(payload, 0, COMMAND_SIZE);
      Some(CommandMessage(reader.U8(0), reader.Text(1, NAME_SIZE), reader.Text(33, ARGS_SIZE)))
  }

  function DecodeReply(payload: Bytes): Option<CommandReply> {
    if |payload| != REPLY_SIZE then None
    else
      var reader := WireReader(payload, 0, REPLY_SIZE);
      Some(CommandReply(reader.U8(0), ResultFromByte(reader.U8(1)), reader.Text(2, NAME_SIZE),
                        reader.Text(34, REPLY_TEXT_SIZE)))
  }

  /** A command comes back with its texts cut to their fields. */
  lemma CommandComesBack(m: CommandMessage)
    ensures DecodeCommand(CommandBytes(m)) ==
            Some(m.(serviceName := CutText(m.serviceName, NAME_SIZE), args := CutText(m.args, ARGS_SIZE)))
  {
    hide TextField, ToBytes, CutText, At, WireReader.U8, WireReader.Text;
    var payload := CommandBytes(m);
    StartsAt(payload, payload);
    PartsLie(payload);
    ReadsBack(WireReader(payload, 0, COMMAND_SIZE));
  }

  lemma ReplyComesBack(r: CommandReply)
    ensures DecodeReply(ReplyBytes(r)) ==
            Some(r.(serviceName := CutText(r.serviceName, NAME_SIZE), message := CutText(r.message, REPLY_TEXT_SIZE)))
  {
    hide TextField, ToBytes, CutText, At, WireReader.U8, WireReader.Text;
    var payload := ReplyBytes(r);
    StartsAt(payload, payload);
    PartsLie(payload);
    ReadsBack(WireReader(payload, 0, REPLY_SIZE));
  }
}
