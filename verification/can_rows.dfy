/**
 * One decoded CAN message as the BLF reader hands it to the converter, and
 * the CSV row the converter builds from it (one dictionary per message with
 * the columns timestamp, channel, arbitration_id, is_extended_id,
 * is_remote_frame, is_error_frame, dlc and data).
 */
module CanRows {
  import opened Wrappers
  import opened TextFormat

  /** The fields of a decoded message that the converter reads. */
  datatype Message = Message(
    timestamp: real,
    channel: Option<nat>,
    arbitrationId: nat,
    isExtendedId: bool,
    isRemoteFrame: bool,
    isErrorFrame: bool,
    dlc: nat,
    data: seq<Byte>)

  /** The row handed to the CSV writer. The timestamp is kept as the value
      the column is formatted from (six decimals, which loses precision);
      every other column holds the text written to the file, except `dlc`,
      which the row carries as the message's number. */
  datatype Row = Row(
    timestamp: real,
    channel: string,
    arbitrationId: string,
    isExtendedId: string,
    isRemoteFrame: string,
    isErrorFrame: string,
    dlc: nat,
    data: string)

  /** The text a channel number is written as when the message has none. */
  const NotAvailable: string := "N/A"

  // ---------------------------------------------------------------------------
  // Column encoders
  // ---------------------------------------------------------------------------

  /** Python's str() of a boolean. */
  function BoolText(b: bool): string {
    if b then "True" else "False"
  }

  function ParseBool(s: string): (r: Option<bool>)
    ensures r.Some? <==> s == "True" || s == "False"
  {
    if s == "True" then Some(true) else if s == "False" then Some(false) else None
  }

  /** The flag columns read back as the flag, and hold nothing but "True"
      or "False". */
  lemma BoolTextRoundTrip(b: bool)
    ensures ParseBool(BoolText(b)) == Some(b)
    ensures BoolText(b) == "True" <==> b
  {
  }

  /** The channel column: the channel number in decimal, or "N/A" when the
      message carries no channel. */
  function ChannelText(channel: Option<nat>): string {
    match channel
    case Some(c) =>
      var digits := ToBase(c, 10);
      assert digits != NotAvailable by {
        assert IsDigitOf(digits[0], 10) && NotAvailable[0] == 'N';
      }
      digits
    case None => NotAvailable
  }

  function ParseChannel(s: string): Option<Option<nat>> {
    if s == NotAvailable then Some(None)
    else match ParseDigits(s, 10)
      case Some(c) => Some(Some(c))
      case None => None
  }

  /** The channel column is "N/A" exactly when the message has no channel,
      and otherwise reads back as the channel number. */
  lemma ChannelTextRoundTrip(channel: Option<nat>)
    ensures ChannelText(channel) == NotAvailable <==> channel.None?
    ensures ParseChannel(ChannelText(channel)) == Some(channel)
  {
    if channel.Some? {
      ParseToBase(channel.value, 10);
    }
  }

  /** f'0x{id:X}': "0x" and the upper-case hex digits of the id, unpadded. */
  function IdText(id: nat): string {
    "0x" + ToBase(id, 16)
  }

  function ParseId(s: string): (r: Option<nat>) {
    if |s| >= 2 && s[..2] == "0x" then ParseDigits(s[2..], 16) else None
  }

  /** The arbitration_id column is "0x" followed by canonical upper-case hex
      digits, and it reads back as the identifier. */
  lemma IdTextRoundTrip(id: nat)
    ensures |IdText(id)| >= 3 && IdText(id)[..2] == "0x"
    ensures Canonical(IdText(id)[2..]) && AllDigits(IdText(id)[2..], 16)
    ensures ParseId(IdText(id)) == Some(id)
  {
    var s := IdText(id);
    assert s[2..] == ToBase(id, 16);
    ParseToBase(id, 16);
  }

  /** The only text IdText produces for a canonical digit string is that
      string's own value: the column and the identifier determine each other. */
  lemma IdTextCanonical(s: string)
    requires |s| >= 3 && s[..2] == "0x" && Canonical(s[2..]) && AllDigits(s[2..], 16)
    ensures ParseId(s).Some? && IdText(ParseId(s).value) == s
  {
    ToBaseFromBase(s[2..], 16);
    assert s == "0x" + s[2..];
  }

  // ---------------------------------------------------------------------------
  // Rows
  // ---------------------------------------------------------------------------

  /** The row the converter writes for one message. */
  function MakeRow(m: Message): Row {
    Row(
      m.timestamp,
      ChannelText(m.channel),
      IdText(m.arbitrationId),
      BoolText(m.isExtendedId),
      BoolText(m.isRemoteFrame),
      BoolText(m.isErrorFrame),
      m.dlc,
      DataHex(m.data))
  }

  /** Reads the seven exact columns of a row back into a message. The
      timestamp column is written with six decimals and does not determine
      the timestamp, so the caller supplies it. */
  function DecodeRow(r: Row, timestamp: real): Option<Message> {
    match (ParseChannel(r.channel), ParseId(r.arbitrationId), ParseBool(r.isExtendedId),
           ParseBool(r.isRemoteFrame), ParseBool(r.isErrorFrame), ParseDataHex(r.data))
    case (Some(ch), Some(id), Some(ext), Some(rtr), Some(err), Some(data)) =>
      Some(Message(timestamp, ch, id, ext, rtr, err, r.dlc, data))
    case _ => None
  }

  /** The columns other than the timestamp agree. */
  predicate SameExactColumns(r1: Row, r2: Row) {
    r1.(timestamp := 0.0) == r2.(timestamp := 0.0)
  }

  /** Every column but the timestamp carries its field of the message: those
      seven columns read back as the message, up to its timestamp. */
  lemma DecodeMakeRow(m: Message, t: real)
    ensures DecodeRow(MakeRow(m), t) == Some(m.(timestamp := t))
  {
    ChannelTextRoundTrip(m.channel);
    IdTextRoundTrip(m.arbitrationId);
    ParseDataHexRoundTrip(m.data);
  }

  /** The columns match the message's flags, dlc and channel presence. */
  lemma RowColumns(m: Message)
    ensures MakeRow(m).isExtendedId == "True" <==> m.isExtendedId
    ensures MakeRow(m).isRemoteFrame == "True" <==> m.isRemoteFrame
    ensures MakeRow(m).isErrorFrame == "True" <==> m.isErrorFrame
    ensures MakeRow(m).isErrorFrame == "False" <==> !m.isErrorFrame
    ensures MakeRow(m).dlc == m.dlc && MakeRow(m).timestamp == m.timestamp
    ensures MakeRow(m).channel == NotAvailable <==> m.channel.None?
  {
  }

  /** Messages that differ in anything but the timestamp are written as
      rows that differ outside the timestamp column. */
  lemma MakeRowInjective(m1: Message, m2: Message)
    requires SameExactColumns(MakeRow(m1), MakeRow(m2))
    ensures m1 == m2.(timestamp := m1.timestamp)
  {
    var r1, r2 := MakeRow(m1), MakeRow(m2);
    assert r1.channel == r2.channel && r1.arbitrationId == r2.arbitrationId && r1.data == r2.data
      && r1.isExtendedId == r2.isExtendedId && r1.isRemoteFrame == r2.isRemoteFrame
      && r1.isErrorFrame == r2.isErrorFrame && r1.dlc == r2.dlc
    by {
      assert r1.(timestamp := 0.0) == r2.(timestamp := 0.0);
    }
    DecodeMakeRow(m1, m1.timestamp);
    DecodeMakeRow(m2, m1.timestamp);
  }

  /** A standard frame with identifier 0x123 and payload 01 02 03 04. */
  lemma StandardFrameRow(t: real)
    ensures MakeRow(Message(t, Some(0), 0x123, false, false, false, 4, [1, 2, 3, 4]))
         == Row(t, "0", "0x123", "False", "False", "False", 4, "01 02 03 04")
  {
    assert ToBase(0x123, 16) == "123" by {
      assert ToBase(0x12, 16) == "12" by {
        assert ToBase(1, 16) == "1";
      }
    }
    var data: seq<Byte> := [1, 2, 3, 4];
    DataHexUnfold(data);
    DataHexUnfold(data[1..]);
    DataHexUnfold(data[2..]);
    var last := data[3..];
    var parts := seq(|last|, i requires 0 <= i < |last| => ByteHex(last[i]));
    assert DataHex(last) == parts[0] == "04";
  }
}
