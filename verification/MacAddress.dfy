/** Ethernet addresses as `Pcap::macToString` prints them, and a reader of that text. */
module MacAddress {
  import opened Wrappers
  import opened Bytes
  import opened Numerals
  import opened HexDump

  const MAC_LEN := 6

  function UpperChar(c: char): char {
    if 'a' <= c <= 'z' then c - 'a' + 'A' else c
  }

  /** `QString::toUpper`, on the characters used here. */
  function Upper(s: string): (r: string)
    ensures |r| == |s|
  {
    seq(|s|, i requires 0 <= i < |s| => UpperChar(s[i]))
  }

  /** Two digits per byte, separated by colons. */
  function Colons(mac: seq<byte>): string {
    if mac == [] then ""
    else if |mac| == 1 then HexPadded(mac[0], 2)
    else HexPadded(mac[0], 2) + ":" + Colons(mac[1..])
  }

  function MacText(mac: seq<byte>): string {
    Upper(Colons(mac))
  }

  // ---------- reading the text back ----------

  function UpperValue(c: char): Option<nat> {
    if '0' <= c <= '9' then Some(c as int - '0' as int)
    else if 'A' <= c <= 'F' then Some(c as int - 'A' as int + 10)
    else None
  }

  function ReadOctet(high: char, low: char): Option<byte> {
    var hi :- UpperValue(high);
    var lo :- UpperValue(low);
    var c: int := 16 * hi + lo;
    if 0 <= c < 256 then Some(c) else None
  }

  function ReadMac(s: string): Option<seq<byte>> {
    if |s| < 2 then None else
      var c :- ReadOctet(s[0], s[1]);
      if |s| == 2 then Some([c])
      else if s[2] != ':' then None
      else
        var rest :- ReadMac(s[3..]);
        Some([c] + rest)
  }

  lemma UpperDigit(d: nat)
    requires d < 16
    ensures UpperValue(UpperChar(HexDigit(d))) == Some(d)
  {
  }

  lemma OctetReadable(c: byte)
    ensures |HexPadded(c, 2)| == 2
    ensures ReadOctet(UpperChar(HexPadded(c, 2)[0]), UpperChar(HexPadded(c, 2)[1])) == Some(c)
  {
    ByteText(c);
    hide HexPadded, UpperChar, UpperValue, HexDigit;
    var hi, lo: nat := c as nat / 16, c as nat % 16;
    UpperDigit(hi);
    UpperDigit(lo);
    assert 16 * hi + lo == c;
  }

  lemma UpperConcat(s: string, t: string)
    ensures Upper(s + t) == Upper(s) + Upper(t)
  {
    hide UpperChar;
  }

  lemma UpperColon()
    ensures Upper(":") == ":"
  {
  }

  lemma MacParts(mac: seq<byte>)
    requires |mac| > 1
    ensures MacText(mac) == Upper(HexPadded(mac[0], 2)) + ":" + MacText(mac[1..])
  {
    hide HexPadded, UpperChar, Upper;
    UpperConcat(HexPadded(mac[0], 2) + ":", Colons(mac[1..]));
    UpperConcat(HexPadded(mac[0], 2), ":");
    UpperColon();
  }

  lemma LoneOctet(c: byte)
    ensures MacText([c]) == Upper(HexPadded(c, 2))
  {
    hide HexPadded, Upper;
  }

  lemma ReadMacStep(octet: string, tail: string, c: byte, rest: seq<byte>)
    requires |octet| == 2 && ReadOctet(octet[0], octet[1]) == Some(c) && ReadMac(tail) == Some(rest)
    ensures ReadMac(octet + ":" + tail) == Some([c] + rest)
  {
    hide ReadOctet;
    assert (octet + ":" + tail)[3..] == tail;
  }

  /** The printed address determines its bytes. */
  lemma {:induction false} MacReadable(mac: seq<byte>)
    requires mac != []
    ensures |MacText(mac)| == 3 * |mac| - 1
    ensures ReadMac(MacText(mac)) == Some(mac)
  {
    hide HexPadded, UpperChar, ReadOctet, MacText;
    OctetReadable(mac[0]);
    var octet := Upper(HexPadded(mac[0], 2));
    if |mac| == 1 {
      LoneOctet(mac[0]);
      assert mac == [mac[0]];
    } else {
      MacParts(mac);
      MacReadable(mac[1..]);
      hide ReadMac;
      ReadMacStep(octet, MacText(mac[1..]), mac[0], mac[1..]);
      assert mac == [mac[0]] + mac[1..];
    }
  }
}
