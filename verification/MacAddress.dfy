// MAC addresses as text.
module MacAddress {
  import opened Types
  import opened Decimal
  import opened Words

  function HexDigit(n: nat): char
    requires n < 16
  {
    if n < 10 then '0' + n as char else 'a' + (n - 10) as char
  }

  // %02x
  function OctetText(b: byte): (r: string)
    ensures |r| == 2
  {
    [HexDigit(b / 16), HexDigit(b % 16)]
  }

  // %02x:%02x:...
  function MacText(mac: seq<byte>): string {
    if mac == [] then []
    else OctetText(mac[0]) + if |mac| == 1 then [] else ":" + MacText(mac[1..])
  }

  function HexValue(c: char): (r: Option<nat>)
    ensures r.Some? ==> r.value < 16
  {
    if '0' <= c <= '9' then Some(c as int - '0' as int)
    else if 'a' <= c <= 'f' then Some(c as int - 'a' as int + 10)
    else if 'A' <= c <= 'F' then Some(c as int - 'A' as int + 10)
    else None
  }

  // One %02x: white space is skipped, then one or two hex digits are read.
  function ScanOctet(s: string): Option<(byte, string)> {
    var t := SkipSpaces(s);
    if t == [] || HexValue(t[0]).None? then None
    else if |t| == 1 || HexValue(t[1]).None? then Some((HexValue(t[0]).value, t[1..]))
    else Some((16 * HexValue(t[0]).value + HexValue(t[1]).value, t[2..]))
  }

  // The first n octets of hh:hh:..., whatever text follows them.
  function ScanMac(s: string, n: nat): (r: Option<seq<byte>>)
    requires 0 < n
    ensures r.Some? ==> |r.value| == n
    decreases n
  {
    var first := ScanOctet(s);
    if first.None? then None
    else if n == 1 then Some([first.value.0])
    else if first.value.1 == [] || first.value.1[0] != ':' then None
    else
      var rest := ScanMac(first.value.1[1..], n - 1);
      if rest.None? then None else Some([first.value.0] + rest.value)
  }

  predicate IsMacText(s: string) {
    ScanMac(s, 6).Some?
  }

  lemma ScanPrinted(b: byte, rest: string)
    ensures ScanOctet(OctetText(b) + rest) == Some((b, rest))
  {
    var s := OctetText(b) + rest;
    assert s[2..] == rest && !IsSpace(s[0]);
    assert HexValue(s[0]) == Some(b / 16) && HexValue(s[1]) == Some(b % 16);
  }

  // Octets print as text that reads back as the same octets, whatever follows.
  lemma {:induction false} MacRoundTrip(mac: seq<byte>, rest: string)
    requires mac != []
    ensures ScanMac(MacText(mac) + rest, |mac|) == Some(mac)
  {
    MacTextFirst(mac, rest);
    if |mac| == 1 {
      ScanLast(mac[0], rest);
      assert mac == [mac[0]];
    } else {
      MacRoundTrip(mac[1..], rest);
      ScanOneMore(mac[0], MacText(mac[1..]) + rest, |mac|);
      assert [mac[0]] + mac[1..] == mac;
    }
  }

  lemma MacTextFirst(mac: seq<byte>, rest: string)
    requires mac != []
    ensures MacText(mac) + rest == OctetText(mac[0]) + if |mac| == 1 then rest else ":" + (MacText(mac[1..]) + rest)
  {
    if |mac| == 1 {
      assert MacText(mac) == OctetText(mac[0]);
    } else {
      var octet, tail := OctetText(mac[0]), MacText(mac[1..]);
      assert MacText(mac) == octet + (":" + tail);
      Regroup(octet, ":", tail, rest);
    }
  }

  lemma Regroup(a: string, b: string, c: string, d: string)
    ensures a + (b + c) + d == a + (b + (c + d))
  {
  }

  lemma ScanLast(b: byte, rest: string)
    ensures ScanMac(OctetText(b) + rest, 1) == Some([b])
  {
    ScanPrinted(b, rest);
  }

  lemma ScanOneMore(b: byte, more: string, n: nat)
    requires n > 1 && ScanMac(more, n - 1).Some?
    ensures ScanMac(OctetText(b) + (":" + more), n) == Some([b] + ScanMac(more, n - 1).value)
  {
    ScanPrinted(b, ":" + more);
    assert (":" + more)[1..] == more;
  }

  // Three characters an octet, less the last colon: hex digits and colons.
  lemma {:induction false} MacTextShape(mac: seq<byte>)
    requires mac != []
    ensures var s := MacText(mac);
            && |s| == 3 * |mac| - 1
            && forall i | 0 <= i < |s| :: if i % 3 == 2 then s[i] == ':' else '0' <= s[i] <= '9' || 'a' <= s[i] <= 'f'
  {
    var s := MacText(mac);
    if |mac| > 1 {
      MacTextShape(mac[1..]);
      var t := MacText(mac[1..]);
      assert s == [s[0], s[1], ':'] + t;
      assert forall i | 3 <= i < |s| :: s[i] == t[i - 3];
    }
  }
}
