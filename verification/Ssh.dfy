/** SSH KEXINIT messages: building, framing and reading them back. Bytes are characters below 256. */
module Ssh {
  import opened Sequences
  import opened Text

  datatype KexInit = KexInit(kex: seq<string>, encryption: seq<string>, mac: seq<string>)

  predicate IsBytes(s: string) {
    forall i | 0 <= i < |s| :: s[i] as int < 256
  }

  const WORD := 0x1_0000_0000

  function Byte(n: nat): char
    requires n < 256
  {
    n as char
  }

  function EncodeUint32(v: nat): (s: string)
    requires v < WORD
    ensures |s| == 4 && IsBytes(s)
  {
    [Byte(v / 0x100_0000), Byte(v / 0x1_0000 % 256), Byte(v / 0x100 % 256), Byte(v % 256)]
  }

  function ReadUint32(raw: string, pos: nat): nat
    requires pos + 4 <= |raw|
  {
    raw[pos] as int * 0x100_0000 + raw[pos + 1] as int * 0x1_0000 + raw[pos + 2] as int * 0x100 + raw[pos + 3] as int
  }

  lemma Digits(v: nat)
    ensures v == v / 0x100_0000 * 0x100_0000 + v / 0x1_0000 % 256 * 0x1_0000 + v / 0x100 % 256 * 0x100 + v % 256
  {
    var a, b := v / 0x100, v / 0x1_0000;
    assert v == a * 0x100 + v % 256;
    assert a == a / 256 * 256 + a % 256 && a / 256 == b;
    assert b == b / 256 * 256 + b % 256 && b / 256 == v / 0x100_0000;
  }

  lemma Uint32RoundTrip(v: nat, raw: string, pos: nat)
    requires v < WORD && pos + 4 <= |raw| && raw[pos..pos + 4] == EncodeUint32(v)
    ensures ReadUint32(raw, pos) == v
  {
    var s := raw[pos..pos + 4];
    assert raw[pos] == s[0] && raw[pos + 1] == s[1] && raw[pos + 2] == s[2] && raw[pos + 3] == s[3];
    Digits(v);
  }

  // ---- name lists ----

  function Join(names: seq<string>): string {
    if names == [] then ""
    else if |names| == 1 then names[0]
    else names[0] + ("," + Join(names[1..]))
  }

  function NonEmpty(pieces: seq<string>): seq<string> {
    if pieces == [] then [] else (if pieces[0] == "" then [] else [pieces[0]]) + NonEmpty(pieces[1..])
  }

  predicate IsName(name: string) {
    name != "" && ',' !in name
  }

  lemma {:induction false} SplitJoined(names: seq<string>)
    requires forall i | 0 <= i < |names| :: IsName(names[i])
    ensures NonEmpty(Split(Join(names), ',')) == names
    decreases |names|
  {
    if names != [] {
      var first, rest := names[0], names[1..];
      assert names == [first] + rest;
      if rest == [] {
        SplitOne(first);
      } else {
        SplitFirst(first, Join(rest));
        SplitJoined(rest);
        NonEmptyCons(first, Split(Join(rest), ','));
      }
    }
  }

  lemma SplitOne(name: string)
    requires IsName(name)
    ensures Split(name, ',') == [name] && NonEmpty([name]) == [name]
  {
    assert IndexFrom(name, ',', 0) == |name|;
    assert name[..|name|] == name;
  }

  lemma SplitFirst(name: string, rest: string)
    requires IsName(name)
    ensures Split(name + ("," + rest), ',') == [name] + Split(rest, ',')
  {
    var s := name + ("," + rest);
    var k := IndexFrom(s, ',', 0);
    assert s[|name|] == ',';
    assert forall i | 0 <= i < |name| :: s[i] == name[i] && name[i] in name;
    assert k == |name|;
    assert s[..k] == name && s[k + 1..] == rest;
  }

  lemma NonEmptyCons(name: string, pieces: seq<string>)
    requires name != ""
    ensures NonEmpty([name] + pieces) == [name] + NonEmpty(pieces)
  {
    assert ([name] + pieces)[1..] == pieces;
  }

  function NameList(list: string): string
    requires |list| < WORD
  {
    EncodeUint32(|list|) + list
  }

  predicate Encodable(lists: seq<seq<string>>) {
    forall i | 0 <= i < |lists| :: |Join(lists[i])| < WORD && forall k | 0 <= k < |lists[i]| :: IsName(lists[i][k])
  }

  function NameLists(lists: seq<seq<string>>): string
    requires Encodable(lists)
  {
    if lists == [] then "" else NameList(Join(lists[0])) + NameLists(lists[1..])
  }

  // ---- messages ----

  /** Message code, cookie, the lists, first_kex_packet_follows and the reserved word. */
  function Payload(cookie: string, lists: seq<seq<string>>): string
    requires |cookie| == 16 && Encodable(lists)
  {
    [Byte(20)] + (cookie + (NameLists(lists) + ([Byte(0)] + EncodeUint32(0))))
  }

  function PadLength(payload: nat): (pad: nat)
    ensures 4 <= pad <= 11 && (1 + payload + pad) % 8 == 0
  {
    var pad := 8 - (1 + payload) % 8;
    if pad < 4 then pad + 8 else pad
  }

  function Frame(payload: string): string
    requires 1 + |payload| + 11 < WORD
  {
    var pad := PadLength(|payload|);
    EncodeUint32(1 + |payload| + pad) + ([Byte(pad)] + (payload + seq(pad, _ => Byte(0))))
  }

  /** A value, the rejection of the message, or octets behind the string and its terminating zero, about which nothing
      is specified. */
  datatype Read<+T> = Got(value: T) | Rejected | Beyond {
    predicate IsFailure() { !Got? }
    function PropagateFailure<U>(): Read<U>
      requires !Got?
    {
      if Rejected? then Rejected else Beyond
    }
    function Extract(): T
      requires Got?
    {
      value
    }
  }

  /** A name list between `pos` and `end`, and the position after it. */
  function ReadNameList(memory: string, pos: nat, end: nat): Read<(seq<string>, nat)> {
    if pos + 4 > end then Rejected
    else if pos + 4 > |memory| then Beyond
    else
      var n := ReadUint32(memory, pos);
      if pos + 4 + n > end then Rejected
      else if pos + 4 + n > |memory| then Beyond
      else Got((NonEmpty(Split(memory[pos + 4..pos + 4 + n], ',')), pos + 4 + n))
  }

  /** The sums are taken in 32 bits. */
  function Wrap(x: int): nat {
    x % WORD
  }

  /** The announced size of the packet. */
  function Announced(raw: string): nat
    requires |raw| >= 5
  {
    Wrap(4 + ReadUint32(raw, 0))
  }

  /** Where the payload ends; the subtraction wraps around as well. */
  function PayloadEnd(raw: string): nat
    requires |raw| >= 5
  {
    Wrap(Announced(raw) - raw[4] as int)
  }

  function ParseKexInit(raw: string): Read<KexInit> {
    if |raw| < 6 then Rejected
    else if |raw| < Announced(raw) || 5 >= PayloadEnd(raw) || raw[5] as int != 20 then Rejected
    else ReadLists(raw + [Byte(0)], 22, PayloadEnd(raw))
  }

  function ReadLists(memory: string, pos: nat, end: nat): Read<KexInit> {
    var (kex, p1) :- ReadNameList(memory, pos, end);
    var (_, p2) :- ReadNameList(memory, p1, end);
    var (_, p3) :- ReadNameList(memory, p2, end);
    var (encryption, p4) :- ReadNameList(memory, p3, end);
    var (_, p5) :- ReadNameList(memory, p4, end);
    var (mac, _) :- ReadNameList(memory, p5, end);
    Got(KexInit(kex, encryption, mac))
  }

  // ---- the step-by-step code ----

  lemma {:induction false} JoinAppend(names: seq<string>, name: string)
    requires names != []
    ensures Join(names + [name]) == Join(names) + ("," + name)
  {
    var all := names + [name];
    if |names| == 1 {
      assert all[1..] == [name];
    } else {
      assert all[1..] == names[1..] + [name];
      JoinAppend(names[1..], name);
    }
  }

  method JoinAlgorithms(list: seq<string>) returns (out: string)
    ensures out == Join(list)
  {
    out := "";
    for i := 0 to |list|
      invariant out == Join(list[..i])
    {
      assert list[..i + 1] == list[..i] + [list[i]];
      if i > 0 {
        JoinAppend(list[..i], list[i]);
        out := out + ",";
      }
      out := out + list[i];
    }
    assert list[..|list|] == list;
  }

  function Zeros(n: nat): string {
    seq(n, _ => Byte(0))
  }

  lemma {:induction false} NameListsAppend(lists: seq<seq<string>>, list: seq<string>)
    requires Encodable(lists + [list])
    ensures Encodable(lists) && |Join(list)| < WORD
    ensures NameLists(lists + [list]) == NameLists(lists) + NameList(Join(list))
  {
    hide Join, NameList, IsName;
    var all := lists + [list];
    assert forall i | 0 <= i < |lists| :: all[i] == lists[i];
    assert all[|lists|] == list;
    if lists == [] {
      assert all[1..] == [];
    } else {
      assert all[1..] == lists[1..] + [list];
      NameListsAppend(lists[1..], list);
    }
  }

  method BuildPayload(lists: seq<seq<string>>) returns (p: string)
    requires Encodable(lists)
    ensures p == Payload(Zeros(16), lists)
  {
    hide Join, NameList, EncodeUint32, IsName;
    p := [Byte(20)];
    for i := 0 to 16
      invariant p == [Byte(20)] + Zeros(i)
    {
      assert Zeros(i + 1) == Zeros(i) + [Byte(0)];
      p := p + [Byte(0)];
    }
    ghost var head := p;
    for i := 0 to |lists|
      invariant Encodable(lists[..i]) && p == head + NameLists(lists[..i])
    {
      assert lists[..i + 1] == lists[..i] + [lists[i]];
      NameListsAppend(lists[..i], lists[i]);
      p := p + NameList(Join(lists[i]));
    }
    assert lists[..|lists|] == lists;
    p := p + [Byte(0)] + EncodeUint32(0);
  }

  method FramePacket(payload: string) returns (out: string)
    requires 1 + |payload| + 11 < WORD
    ensures out == Frame(payload)
  {
    hide EncodeUint32;
    var base := 1 + |payload|;
    var pad := 8 - base % 8;
    if pad < 4 {
      pad := pad + 8;
    }
    out := EncodeUint32(1 + |payload| + pad) + [Byte(pad)] + payload;
    ghost var head := out;
    for i := 0 to pad
      invariant out == head + seq(i, _ => Byte(0))
    {
      out := out + [Byte(0)];
    }
  }

  lemma SplitStep(rest: string)
    requires rest != ""
    ensures var k := IndexFrom(rest, ',', 0);
            var tail := if k < |rest| then rest[k + 1..] else "";
            NonEmpty(Split(rest, ',')) == (if rest[..k] == "" then [] else [rest[..k]]) + NonEmpty(Split(tail, ','))
  {
    var k := IndexFrom(rest, ',', 0);
    var more := if k < |rest| then Split(rest[k + 1..], ',') else [];
    assert ([rest[..k]] + more)[1..] == more;
    hide Split;
    assert NonEmpty([]) == [];
  }

  /** The getline loop. */
  method NonEmptyPieces(list: string) returns (names: seq<string>)
    ensures names == NonEmpty(Split(list, ','))
  {
    assert NonEmpty(Split("", ',')) == [];
    hide Split, NonEmpty;
    names := [];
    var rest := list;
    ghost var left := NonEmpty(Split(list, ','));
    ghost var all := left;
    assert all == [] + left;
    while rest != ""
      invariant all == names + left && left == NonEmpty(Split(rest, ','))
      decreases |rest|
    {
      SplitStep(rest);
      var k := IndexFrom(rest, ',', 0);
      var item := if rest[..k] == "" then [] else [rest[..k]];
      rest := if k < |rest| then rest[k + 1..] else "";
      Regroup(names, item, NonEmpty(Split(rest, ',')));
      left := NonEmpty(Split(rest, ','));
      names := names + item;
    }
  }

  method ReadNames(memory: string, pos: nat, end: nat) returns (r: Read<(seq<string>, nat)>)
    ensures r == ReadNameList(memory, pos, end)
  {
    if pos + 4 > end {
      return Rejected;
    } else if pos + 4 > |memory| {
      return Beyond;
    }
    var n := ReadUint32(memory, pos);
    if pos + 4 + n > end {
      return Rejected;
    } else if pos + 4 + n > |memory| {
      return Beyond;
    }
    var names := NonEmptyPieces(memory[pos + 4..pos + 4 + n]);
    return Got((names, pos + 4 + n));
  }

  method ReadSix(memory: string, pos: nat, end: nat) returns (r: Read<KexInit>)
    ensures r == ReadLists(memory, pos, end)
  {
    hide ReadNameList;
    var kex :- ReadNames(memory, pos, end);
    var hostKeys :- ReadNames(memory, kex.1, end);
    var toServer :- ReadNames(memory, hostKeys.1, end);
    var toClient :- ReadNames(memory, toServer.1, end);
    var macToServer :- ReadNames(memory, toClient.1, end);
    var macToClient :- ReadNames(memory, macToServer.1, end);
    return Got(KexInit(kex.0, toClient.0, macToClient.0));
  }

  /** The parser step by step. */
  method ParsePacket(raw: string) returns (r: Read<KexInit>)
    ensures r == ParseKexInit(raw)
  {
    ParseUnfolds(raw);
    hide *;
    if |raw| < 6 {
      return Rejected;
    }
    EndIs(raw);
    var packetLength, padding := ReadUint32(raw, 0), raw[4] as int;
    var end := Wrap(4 + packetLength - padding);
    if |raw| < Wrap(4 + packetLength) {
      return Rejected;
    }
    if 5 >= end {
      return Rejected;
    }
    if raw[5] as int != 20 {
      return Rejected;
    }
    r := ReadSix(raw + [Byte(0)], 5 + 17, end);
  }

  lemma ParseUnfolds(raw: string)
    ensures |raw| < 6 ==> ParseKexInit(raw) == Rejected
    ensures |raw| >= 6 && (|raw| < Announced(raw) || 5 >= PayloadEnd(raw) || raw[5] as int != 20) ==>
              ParseKexInit(raw) == Rejected
    ensures |raw| >= 6 && |raw| >= Announced(raw) && 5 < PayloadEnd(raw) && raw[5] as int == 20 ==>
              ParseKexInit(raw) == ReadLists(raw + [Byte(0)], 22, PayloadEnd(raw))
  {
    hide Announced, PayloadEnd, ReadLists;
  }

  lemma EndIs(raw: string)
    requires |raw| >= 5
    ensures Announced(raw) == Wrap(4 + ReadUint32(raw, 0))
    ensures PayloadEnd(raw) == Wrap(4 + ReadUint32(raw, 0) - raw[4] as int)
  {
    hide ReadUint32;
    WrapsOnce(4 + ReadUint32(raw, 0), raw[4] as int);
  }

  lemma WrapsOnce(a: int, b: int)
    ensures Wrap(Wrap(a) - b) == Wrap(a - b)
  {
  }

  // ---- round trip ----

  /** Every list that starts before the end of the payload is read back, and reading stops where the next begins. */
  lemma ReadOneList(raw: string, pos: nat, end: nat, lists: seq<seq<string>>)
    requires Encodable(lists) && lists != [] && At(raw, pos, NameLists(lists))
        && pos + |NameLists(lists)| <= end <= |raw|
    ensures var next := pos + 4 + |Join(lists[0])|;
            && ReadNameList(raw, pos, end) == Got((lists[0], next))
            && Encodable(lists[1..]) && At(raw, next, NameLists(lists[1..]))
            && next + |NameLists(lists[1..])| == pos + |NameLists(lists)|
  {
    hide Split, Join, NonEmpty, EncodeUint32, ReadUint32, IsName;
    var list := Join(lists[0]);
    Halves(raw, pos, NameList(list), NameLists(lists[1..]));
    Halves(raw, pos, EncodeUint32(|list|), list);
    Uint32RoundTrip(|list|, raw, pos);
    SplitJoined(lists[0]);
  }

  lemma ReadSixLists(raw: string, pos: nat, end: nat, lists: seq<seq<string>>)
    requires Encodable(lists) && |lists| >= 6 && At(raw, pos, NameLists(lists))
        && pos + |NameLists(lists)| <= end <= |raw|
    ensures ReadLists(raw, pos, end) == Got(KexInit(lists[0], lists[3], lists[5]))
  {
    hide NameLists, Join, At, Encodable, ReadNameList;
    ReadOneList(raw, pos, end, lists);
    var p1 := pos + 4 + |Join(lists[0])|;
    ReadOneList(raw, p1, end, lists[1..]);
    var p2 := p1 + 4 + |Join(lists[1])|;
    Shift(lists, 1);
    ReadOneList(raw, p2, end, lists[2..]);
    var p3 := p2 + 4 + |Join(lists[2])|;
    Shift(lists, 2);
    ReadOneList(raw, p3, end, lists[3..]);
    var p4 := p3 + 4 + |Join(lists[3])|;
    Shift(lists, 3);
    ReadOneList(raw, p4, end, lists[4..]);
    var p5 := p4 + 4 + |Join(lists[4])|;
    Shift(lists, 4);
    ReadOneList(raw, p5, end, lists[5..]);
  }

  lemma Shift(lists: seq<seq<string>>, k: nat)
    requires k < |lists|
    ensures lists[k..][1..] == lists[k + 1..] && lists[k..][0] == lists[k]
  {
  }

  lemma FrameParts(payload: string, tail: string)
    requires 1 + |payload| + 11 < WORD && payload != ""
    ensures var raw, pad := Frame(payload) + tail, PadLength(|payload|);
            && |raw| >= 5 + |payload| + pad && ReadUint32(raw, 0) == 1 + |payload| + pad
            && raw[4] as int == pad && At(raw, 5, payload)
  {
    hide EncodeUint32, ReadUint32, PadLength;
    var pad := PadLength(|payload|);
    var frame := Frame(payload);
    var raw := frame + tail;
    var length, rest := EncodeUint32(1 + |payload| + pad), [Byte(pad)] + (payload + seq(pad, _ => Byte(0)));
    assert raw[0..|frame|] == length + rest;
    Halves(raw, 0, length, rest);
    Uint32RoundTrip(1 + |payload| + pad, raw, 0);
    Halves(raw, 4, [Byte(pad)], payload + seq(pad, _ => Byte(0)));
    assert raw[4..5][0] == Byte(pad);
    Halves(raw, 5, payload, seq(pad, _ => Byte(0)));
  }

  lemma PayloadParts(raw: string, cookie: string, lists: seq<seq<string>>)
    requires |cookie| == 16 && Encodable(lists) && At(raw, 5, Payload(cookie, lists))
    ensures raw[5] as int == 20 && At(raw, 22, NameLists(lists))
    ensures |Payload(cookie, lists)| == 22 + |NameLists(lists)|
  {
    hide EncodeUint32, NameLists, Encodable;
    var tail := [Byte(0)] + EncodeUint32(0);
    Halves(raw, 5, [Byte(20)], cookie + (NameLists(lists) + tail));
    assert raw[5..6][0] == Byte(20);
    Halves(raw, 6, cookie, NameLists(lists) + tail);
    Halves(raw, 22, NameLists(lists), tail);
  }

  /** Ten name lists, framed, with anything after the packet: exactly the first, fourth and sixth come back, and
      the payload is taken to end where it does. */
  lemma KexInitRoundTrip(cookie: string, lists: seq<seq<string>>, tail: string)
    requires |cookie| == 16 && |lists| == 10 && Encodable(lists) && |Payload(cookie, lists)| + 12 < WORD
    ensures var payload := Payload(cookie, lists);
            var raw := Frame(payload) + tail;
            && ParseKexInit(raw) == Got(KexInit(lists[0], lists[3], lists[5]))
            && PayloadEnd(raw) == 5 + |payload|
  {
    hide Payload, Frame, NameLists, Encodable, ReadLists, ReadUint32, PadLength, At;
    var payload := Payload(cookie, lists);
    var raw := Frame(payload) + tail;
    PayloadLength(cookie, lists);
    FrameParts(payload, tail);
    PayloadParts(raw, cookie, lists);
    StillAt(raw, 22, NameLists(lists));
    ReadSixLists(raw + [Byte(0)], 22, 5 + |payload|, lists);
  }

  lemma StillAt(raw: string, pos: nat, piece: string)
    requires At(raw, pos, piece)
    ensures At(raw + [Byte(0)], pos, piece)
  {
  }

  lemma PayloadLength(cookie: string, lists: seq<seq<string>>)
    requires |cookie| == 16 && Encodable(lists)
    ensures |Payload(cookie, lists)| >= 22
  {
    hide NameLists, Encodable;
  }

  // ---- inside the message ----

  lemma ListsInside(memory: string, pos: nat, end: nat)
    requires end <= |memory|
    ensures !ReadLists(memory, pos, end).Beyond?
  {
    hide Split, NonEmpty, ReadUint32;
  }

  /** A message whose first list announces more octets than there are. */
  function Overlong(header: string): string {
    header + ([Byte(20)] + (Zeros(16) + ([Byte(0), Byte(255), Byte(255), Byte(255)] + Zeros(300))))
  }

  lemma OverlongLeaves(header: string)
    requires |header| == 5 && IsBytes(header) && Announced(header) < header[4] as int
    ensures ParseKexInit(Overlong(header)).Beyond?
  {
    var raw := Overlong(header);
    assert raw[0] == header[0] && raw[1] == header[1] && raw[2] == header[2] && raw[3] == header[3];
    assert raw[4] == header[4] && raw[5] == Byte(20) && |raw| == 326;
    assert raw[22] == Byte(0) && raw[23] == raw[24] == raw[25] == Byte(255);
    assert ReadUint32(raw, 0) == ReadUint32(header, 0);
    assert ReadUint32(raw + [Byte(0)], 22) == 0xFF_FFFF;
    hide Overlong, ReadUint32, Split, NonEmpty;
    assert PayloadEnd(raw) >= WORD - 255;
  }

  lemma StaysInside(raw: string)
    requires |raw| >= 5 && raw[4] as int <= Announced(raw)
    ensures !ParseKexInit(raw).Beyond?
  {
    hide ReadLists, ReadUint32;
    ListsInside(raw + [Byte(0)], 22, if |raw| < PayloadEnd(raw) then |raw| else PayloadEnd(raw));
  }

  /** The parser reads nothing behind the message, whatever follows the first five octets, exactly if the padding they
      announce is not longer than the packet. */
  lemma StaysInsideIff(header: string)
    requires |header| == 5 && IsBytes(header)
    ensures (forall rest :: !ParseKexInit(header + rest).Beyond?) <==> header[4] as int <= Announced(header)
  {
    hide ParseKexInit, Announced;
    if header[4] as int <= Announced(header) {
      forall rest: string ensures !ParseKexInit(header + rest).Beyond? {
        SameHeader(header, rest);
        StaysInside(header + rest);
      }
    } else {
      OverlongLeaves(header);
    }
  }

  lemma SameHeader(header: string, rest: string)
    requires |header| == 5
    ensures Announced(header + rest) == Announced(header) && (header + rest)[4] == header[4]
  {
    var raw := header + rest;
    assert raw[0] == header[0] && raw[1] == header[1] && raw[2] == header[2] && raw[3] == header[3];
  }
}
