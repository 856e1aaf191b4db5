/** DNS names and messages: what the resolver sends, and how it walks the answer. Bytes are characters below 256. */
module Dns {
  import opened Sequences
  import opened Text

  type Bytes = string

  function Octet(n: nat): char
    requires n < 256
  {
    n as char
  }

  // ---- names ----

  /** A length octet, cut to eight bits, and the label. */
  function EncodeLabel(segment: string): (b: Bytes)
    ensures |b| == 1 + |segment|
  {
    [Octet(|segment| % 256)] + segment
  }

  function EncodeLabels(labels: seq<string>): Bytes {
    if labels == [] then [] else EncodeLabel(labels[0]) + EncodeLabels(labels[1..])
  }

  function EncodeHostname(hostname: string): Bytes {
    EncodeLabels(Split(hostname, '.')) + [Octet(0)]
  }

  lemma {:induction false} EncodeLabelsAppend(labels: seq<string>, segment: string)
    ensures EncodeLabels(labels + [segment]) == EncodeLabels(labels) + EncodeLabel(segment)
  {
    hide EncodeLabel;
    if labels == [] {
      assert ([] + [segment])[1..] == [];
    } else {
      assert (labels + [segment])[1..] == labels[1..] + [segment];
      EncodeLabelsAppend(labels[1..], segment);
    }
  }

  /** The labels from a position on. */
  function Remaining(hostname: string, start: nat): seq<string> {
    if start < |hostname| then Split(hostname[start..], '.') else []
  }

  /** The labels before a position have been encoded. */
  ghost predicate EncodedUpTo(hostname: string, start: nat, done: seq<string>, encoded: Bytes) {
    encoded == EncodeLabels(done) && done + Remaining(hostname, start) == Split(hostname, '.')
  }

  method EncodeName(hostname: string) returns (encoded: Bytes)
    ensures encoded == EncodeHostname(hostname)
  {
    hide *;
    encoded := [];
    var start: nat := 0;
    ghost var done: seq<string> := [];
    NothingEncoded(hostname);
    while start < |hostname|
      invariant EncodedUpTo(hostname, start, done, encoded)
    {
      var dot := FindDot(hostname, start);
      OneMoreEncoded(hostname, start, dot, done, encoded);
      encoded := encoded + EncodeLabel(hostname[start..dot]);
      done := done + [hostname[start..dot]];
      start := dot + 1;
    }
    AllEncoded(hostname, start, done, encoded);
    encoded := encoded + [Octet(0)];
  }

  /** Position of the first dot from a position on, or the end. */
  function FindDot(hostname: string, start: nat): (dot: nat)
    requires start <= |hostname|
    ensures start <= dot <= |hostname|
  {
    IndexFrom(hostname, '.', start)
  }

  lemma NothingEncoded(hostname: string)
    ensures EncodedUpTo(hostname, 0, [], [])
  {
    assert hostname[0..] == hostname;
    assert [] + Remaining(hostname, 0) == Split(hostname, '.');
  }

  lemma OneMoreEncoded(hostname: string, start: nat, dot: nat, done: seq<string>, encoded: Bytes)
    requires EncodedUpTo(hostname, start, done, encoded) && start < |hostname| && dot == FindDot(hostname, start)
    ensures EncodedUpTo(hostname, dot + 1, done + [hostname[start..dot]], encoded + EncodeLabel(hostname[start..dot]))
  {
    hide EncodeLabels, EncodeLabel, Split, Remaining, IndexFrom;
    NextLabel(hostname, start);
    EncodeLabelsAppend(done, hostname[start..dot]);
    Regroup(done, [hostname[start..dot]], Remaining(hostname, dot + 1));
  }

  lemma AllEncoded(hostname: string, start: nat, done: seq<string>, encoded: Bytes)
    requires start >= |hostname| && EncodedUpTo(hostname, start, done, encoded)
    ensures encoded + [Octet(0)] == EncodeHostname(hostname)
  {
    hide Split, EncodeLabels;
    assert done + [] == done;
  }

  lemma {:induction false} IndexShifts(s: string, from: nat, k: nat)
    requires from + k <= |s|
    ensures IndexFrom(s[from..], '.', k) + from == IndexFrom(s, '.', from + k)
    decreases |s| - from - k
  {
    if from + k < |s| && s[from + k] != '.' {
      IndexShifts(s, from, k + 1);
    }
  }

  lemma SplitUnfolds(s: string, k: nat)
    requires s != "" && k == IndexFrom(s, '.', 0)
    ensures k == |s| ==> Split(s, '.') == [s[..k]]
    ensures k < |s| ==> Split(s, '.') == [s[..k]] + Split(s[k + 1..], '.')
  {
    hide IndexFrom;
  }

  lemma NextLabel(hostname: string, start: nat)
    requires start < |hostname|
    ensures var dot := IndexFrom(hostname, '.', start);
            Remaining(hostname, start) == [hostname[start..dot]] + Remaining(hostname, dot + 1)
  {
    hide Split, IndexFrom;
    var rest, dot := hostname[start..], IndexFrom(hostname, '.', start);
    IndexShifts(hostname, start, 0);
    var k := dot - start;
    SplitUnfolds(rest, k);
    assert rest[..k] == hostname[start..dot];
    if dot + 1 < |hostname| {
      assert rest[k + 1..] == hostname[dot + 1..];
    } else if dot < |hostname| {
      assert rest[k + 1..] == "";
      NothingToSplit();
    }
  }

  lemma NothingToSplit()
    ensures Split("", '.') == []
  {
  }

  /** Past a name: a zero octet or a two-octet compression pointer ends it. */
  function SkipName(data: Bytes, offset: nat): (end: nat)
    ensures offset <= end
    decreases |data| - offset
  {
    if offset >= |data| then offset
    else if data[offset] as int >= 192 then offset + 2
    else if data[offset] as int == 0 then offset + 1
    else SkipName(data, offset + 1 + data[offset] as int)
  }

  method SkipNameLoop(data: Bytes, start: nat) returns (offset: nat)
    ensures offset == SkipName(data, start)
  {
    offset := start;
    while offset < |data|
      invariant SkipName(data, offset) == SkipName(data, start)
    {
      var len := data[offset] as int;
      if len >= 192 {
        return offset + 2;
      }
      if len == 0 {
        return offset + 1;
      }
      offset := offset + 1 + len;
    }
  }

  /** A label the skipping loop takes for what it is. */
  predicate Skippable(segment: string) {
    1 <= |segment| <= 191
  }

  /** A label whose length octet ends the name for the skipping loop: zero, or taken for a pointer. */
  predicate Stops(segment: string) {
    |segment| % 256 == 0 || |segment| % 256 >= 192
  }

  /** Every label is either of these or so long that the loop goes on inside it, at an octet of its text; here such a
      label comes only behind one that stops the loop. */
  ghost predicate StopsBeforeLong(labels: seq<string>) {
    forall i | 0 <= i < |labels| && !Skippable(labels[i]) && !Stops(labels[i]) ::
      exists j | 0 <= j < i :: Stops(labels[j])
  }

  lemma SkipsOne(data: Bytes, offset: nat, segment: string)
    requires At(data, offset, EncodeLabel(segment)) && Skippable(segment)
    ensures SkipName(data, offset) == SkipName(data, offset + 1 + |segment|)
  {
    hide At, EncodeLabel;
    LengthOctet(data, offset, segment);
  }

  lemma LabelsUnfold(labels: seq<string>)
    requires labels != []
    ensures EncodeLabels(labels) + [Octet(0)] == EncodeLabel(labels[0]) + (EncodeLabels(labels[1..]) + [Octet(0)])
  {
    hide EncodeLabel;
    Regroup(EncodeLabel(labels[0]), EncodeLabels(labels[1..]), [Octet(0)]);
  }

  lemma SkipsZero(data: Bytes, offset: nat)
    requires At(data, offset, [Octet(0)])
    ensures SkipName(data, offset) == offset + 1
  {
    ItemAt(data, offset, [Octet(0)], 0);
  }

  lemma NoLabels(labels: seq<string>)
    requires labels == []
    ensures EncodeLabels(labels) == [] && EncodeLabels(labels) + [Octet(0)] == [Octet(0)]
  {
  }

  lemma {:induction false} SkipsLabels(data: Bytes, offset: nat, labels: seq<string>)
    requires At(data, offset, EncodeLabels(labels) + [Octet(0)])
    requires forall i | 0 <= i < |labels| :: Skippable(labels[i])
    ensures SkipName(data, offset) == offset + |EncodeLabels(labels)| + 1
    decreases |labels|
  {
    hide *;
    if labels == [] {
      NoLabels(labels);
      SkipsZero(data, offset);
    } else {
      var first, rest := EncodeLabel(labels[0]), EncodeLabels(labels[1..]);
      LabelsUnfold(labels);
      Halves(data, offset, first, rest + [Octet(0)]);
      SkipsOne(data, offset, labels[0]);
      SkipsLabels(data, offset + |first|, labels[1..]);
      assert |EncodeLabels(labels) + [Octet(0)]| == |first + (rest + [Octet(0)])|;
    }
  }

  lemma {:induction false} StopsEarly(data: Bytes, offset: nat, labels: seq<string>, bad: nat)
    requires At(data, offset, EncodeLabels(labels) + [Octet(0)])
    requires bad < |labels| && Stops(labels[bad]) && forall i | 0 <= i < bad :: Skippable(labels[i])
    ensures SkipName(data, offset) != offset + |EncodeLabels(labels)| + 1
    decreases |labels|
  {
    hide EncodeLabels, EncodeLabel, At;
    var first, rest := EncodeLabel(labels[0]), EncodeLabels(labels[1..]);
    LabelsUnfold(labels);
    assert |EncodeLabels(labels) + [Octet(0)]| == |first + (rest + [Octet(0)])|;
    Halves(data, offset, first, rest + [Octet(0)]);
    if bad > 0 {
      SkipsOne(data, offset, labels[0]);
      hide SkipName;
      StopsEarly(data, offset + |first|, labels[1..], bad - 1);
    } else {
      LengthOctet(data, offset, labels[0]);
    }
  }

  lemma {:induction false} FirstUnskippable(labels: seq<string>) returns (bad: nat)
    requires exists i | 0 <= i < |labels| :: !Skippable(labels[i])
    ensures bad < |labels| && !Skippable(labels[bad]) && forall i | 0 <= i < bad :: Skippable(labels[i])
  {
    bad := 0;
    if Skippable(labels[0]) {
      bad := FirstUnskippable(labels[1..]);
      bad := bad + 1;
    }
  }

  lemma LengthOctet(data: Bytes, offset: nat, segment: string)
    requires At(data, offset, EncodeLabel(segment))
    ensures offset < |data| && data[offset] as int == |segment| % 256
  {
    ItemAt(data, offset, EncodeLabel(segment), 0);
  }

  /** The loop, having reached position p of a name, comes to stand at `target`. */
  predicate Meets(name: Bytes, p: nat, target: nat)
    decreases target - p
  {
    p == target
    || (p < target && p < |name| && 1 <= name[p] as int <= 191 && Meets(name, p + 1 + name[p] as int, target))
  }

  /** It reads the closing zero octet as such, or takes it for the second octet of a pointer. */
  predicate Lands(name: Bytes)
    requires name != []
  {
    var n := |name|;
    Meets(name, 0, n - 1) || (n >= 2 && name[n - 2] as int >= 192 && Meets(name, 0, n - 2))
  }

  ghost predicate LandsFrom(name: Bytes, p: nat, last: bool)
    requires name != []
  {
    var n := |name|;
    || Meets(name, p, n - 1) || (n >= 2 && name[n - 2] as int >= 192 && Meets(name, p, n - 2))
    || (last && Meets(name, p, n))
  }

  lemma {:induction false} SkipFrom(data: Bytes, offset: nat, name: Bytes, p: nat)
    requires At(data, offset, name) && name != [] && name[|name| - 1] == Octet(0)
    ensures SkipName(data, offset + p) == offset + |name| <==> LandsFrom(name, p, offset + |name| == |data|)
    decreases |name| - p
  {
    var n := |name|;
    if p < n {
      ItemAt(data, offset, name, p);
      var len := name[p] as int;
      if 1 <= len <= 191 {
        SkipFrom(data, offset, name, p + 1 + len);
      }
    }
  }

  /** For every host name, wherever its encoding stands in a message: skipping lands just behind it exactly if the
      loop does so within the name, or overruns it by the one octet with which the message ends. */
  lemma SkipInvertsEncodeIff(data: Bytes, offset: nat, hostname: string)
    requires At(data, offset, EncodeHostname(hostname))
    ensures var name := EncodeHostname(hostname);
            var end := offset + |name|;
            SkipName(data, offset) == end <==> Lands(name) || (end == |data| && Meets(name, 0, |name|))
  {
    hide SkipName, Meets, At, EncodeLabels, Split;
    SkipFrom(data, offset, EncodeHostname(hostname), 0);
  }

  /** In terms of the labels: it does so exactly if every label has between 1 and 191 characters. RFC 1035 allows 1 to
      63 (section 3.1); of the longer ones the loop takes 192 to 255 for pointers. */
  lemma LabelsDecide(data: Bytes, offset: nat, hostname: string, labels: seq<string>)
    requires At(data, offset, EncodeHostname(hostname)) && labels == Split(hostname, '.') && StopsBeforeLong(labels)
    ensures SkipName(data, offset) == offset + |EncodeHostname(hostname)|
        <==> forall i | 0 <= i < |labels| :: Skippable(labels[i])
  {
    hide EncodeLabels, SkipName, Split, At;
    if forall i | 0 <= i < |labels| :: Skippable(labels[i]) {
      SkipsLabels(data, offset, labels);
    } else {
      var bad := FirstUnskippable(labels);
      StopsEarly(data, offset, labels, bad);
    }
  }

  function LongLabel(middle: char): string {
    seq(257, i => if i == 208 then middle else 'D')
  }

  /** A long label decides by its text: two host names of one label of 257 letters and digits, alike but for one
      character. */
  lemma LongLabelsGoEitherWay()
    ensures SkipName(EncodeHostname(LongLabel('0')), 0) == |EncodeHostname(LongLabel('0'))|
    ensures SkipName(EncodeHostname(LongLabel('D')), 0) != |EncodeHostname(LongLabel('D'))|
  {
    LongName('0');
    LongName('D');
    hide EncodeHostname;
  }

  lemma OneLabel(segment: string)
    requires segment != "" && '.' !in segment
    ensures Split(segment, '.') == [segment]
  {
    var k := IndexFrom(segment, '.', 0);
    SplitUnfolds(segment, k);
    assert segment[..|segment|] == segment;
  }

  lemma LongName(middle: char)
    requires middle == '0' || middle == 'D'
    ensures var name := EncodeHostname(LongLabel(middle));
            |name| == 259 && SkipName(name, 0) == if middle == '0' then 259 else 278
  {
    var text := LongLabel(middle);
    OneLabel(text);
    var name := EncodeHostname(text);
    assert EncodeLabels([text]) == EncodeLabel(text) + [] by {
      assert [text][1..] == [];
    }
    assert name == [Octet(1)] + text + [Octet(0)];
    assert name[0] == Octet(1) && name[209] == middle && name[258] == Octet(0);
    assert name[2] == 'D' && name[71] == 'D' && name[140] == 'D';
    hide *;
    SkipsOctet(name, 0);
    SkipsOctet(name, 2);
    SkipsOctet(name, 71);
    SkipsOctet(name, 140);
    SkipsOctet(name, 209);
    SkipsOctet(name, 258);
    SkipsOctet(name, 278);
  }

  lemma SkipsOctet(data: Bytes, offset: nat)
    ensures SkipName(data, offset) ==
            if offset >= |data| then offset
            else if data[offset] as int >= 192 then offset + 2
            else if data[offset] as int == 0 then offset + 1
            else SkipName(data, offset + 1 + data[offset] as int)
  {
  }

  /** What a reader of the name finds: the labels behind their length octets, up to a zero. */
  function ReadLabels(name: Bytes, p: nat): seq<string>
    decreases |name| - p
  {
    if p >= |name| || name[p] == Octet(0) || p + 1 + name[p] as int > |name| then []
    else [name[p + 1..p + 1 + name[p] as int]] + ReadLabels(name, p + 1 + name[p] as int)
  }

  lemma {:induction false} LabelsAt(name: Bytes, p: nat, labels: seq<string>)
    requires At(name, p, EncodeLabels(labels) + [Octet(0)])
    requires forall k | 0 <= k < |labels| :: 1 <= |labels[k]| <= 255
    ensures ReadLabels(name, p) == labels
    decreases |labels|
  {
    if labels == [] {
      NoLabels(labels);
      ItemAt(name, p, EncodeLabels(labels) + [Octet(0)], 0);
    } else {
      LabelsUnfold(labels);
      Halves(name, p, EncodeLabel(labels[0]), EncodeLabels(labels[1..]) + [Octet(0)]);
      LabelAt(name, p, labels[0]);
      hide EncodeLabels, EncodeLabel, At;
      LabelsAt(name, p + 1 + |labels[0]|, labels[1..]);
    }
  }

  lemma LabelAt(name: Bytes, p: nat, segment: string)
    requires At(name, p, EncodeLabel(segment)) && 1 <= |segment| <= 255
    ensures p + 1 + |segment| <= |name| && name[p] as int == |segment|
    ensures name[p + 1..p + 1 + |segment|] == segment
  {
    LengthOctet(name, p, segment);
    Halves(name, p, [Octet(|segment| % 256)], segment);
    AtMeans(name, p + 1, segment);
  }

  /** Labels of up to 255 characters are read back from the encoded name. */
  lemma LabelsRoundTrip(hostname: string)
    requires forall k | 0 <= k < |Split(hostname, '.')| :: 1 <= |Split(hostname, '.')[k]| <= 255
    ensures ReadLabels(EncodeHostname(hostname), 0) == Split(hostname, '.')
  {
    hide ReadLabels, Split, EncodeLabels;
    LabelsAt(EncodeHostname(hostname), 0, Split(hostname, '.'));
  }

  // ---- the query ----

  function Uint16(n: nat): (b: Bytes)
    requires n < 0x1_0000
    ensures |b| == 2
  {
    [Octet(n / 256), Octet(n % 256)]
  }

  function Query(id: nat, hostname: string): Bytes
    requires id < 0x1_0000
  {
    Uint16(id) + Uint16(0x100) + Uint16(1) + Uint16(0) + Uint16(0) + Uint16(0)
    + EncodeHostname(hostname) + Uint16(1) + Uint16(1)
  }

  /** The packet as it is put together. */
  method BuildQuery(hostname: string, id: nat) returns (packet: Bytes)
    requires id < 0x1_0000
    ensures packet == Query(id, hostname)
  {
    hide EncodeHostname;
    packet := Uint16(id) + Uint16(0x100) + Uint16(1) + Uint16(0) + Uint16(0) + Uint16(0);
    var name := EncodeName(hostname);
    packet := packet + name;
    packet := packet + Uint16(1);
    packet := packet + Uint16(1);
  }

  /** Read back: the id, the flag "recursion desired", one question and nothing else, and behind the name type A and
      class IN (sections 4.1.1 and 4.1.2). */
  lemma QueryFields(id: nat, hostname: string)
    requires id < 0x1_0000
    ensures var q, n := Query(id, hostname), |EncodeHostname(hostname)|;
            && |q| == 16 + n && q[12..12 + n] == EncodeHostname(hostname)
            && ReadUint16(q, 0) == id && ReadUint16(q, 2) == 256 && ReadUint16(q, 4) == 1
            && ReadUint16(q, 6) == ReadUint16(q, 8) == ReadUint16(q, 10) == 0
            && ReadUint16(q, 12 + n) == 1 && ReadUint16(q, 14 + n) == 1
  {
    var q, name := Query(id, hostname), EncodeHostname(hostname);
    var n := |name|;
    hide EncodeHostname;
    assert q[0] == Octet(id / 256) && q[1] == Octet(id % 256);
    assert q[2] == Octet(1) && q[3] == Octet(0) && q[4] == Octet(0) && q[5] == Octet(1);
    assert q[6] == q[7] == q[8] == q[9] == q[10] == q[11] == Octet(0);
    assert q[12 + n] == Octet(0) && q[13 + n] == Octet(1) && q[14 + n] == Octet(0) && q[15 + n] == Octet(1);
    assert q[12..12 + n] == name;
  }

  /** The code that skips the question of an answer skips that of a query exactly if it lands within the name, and
      that is if its labels can be skipped. */
  lemma QueryIsSkipped(id: nat, hostname: string, labels: seq<string>)
    requires id < 0x1_0000 && labels == Split(hostname, '.')
    ensures var skipped := SkipName(Query(id, hostname), 12) + 4 == |Query(id, hostname)|;
            && (skipped <==> Lands(EncodeHostname(hostname)))
            && (StopsBeforeLong(labels) ==> (skipped <==> forall i | 0 <= i < |labels| :: Skippable(labels[i])))
  {
    hide SkipName, Split, StopsBeforeLong, Skippable, Lands, Meets;
    var name := EncodeHostname(hostname);
    var q := Query(id, hostname);
    hide EncodeHostname;
    assert q[12..12 + |name|] == name;
    SkipInvertsEncodeIff(q, 12, hostname);
    if StopsBeforeLong(labels) {
      LabelsDecide(q, 12, hostname, labels);
    }
  }

  // ---- the answer ----

  /** Unspecified: the address would be read past the end of the message. */
  datatype Answer = Found(address: Bytes) | NotFound | Unspecified

  function ReadUint16(data: Bytes, offset: nat): nat
    requires offset + 2 <= |data|
  {
    data[offset] as int * 256 + data[offset + 1] as int
  }

  function Walk(data: Bytes, offset: nat, left: nat): Answer
    decreases left
  {
    if left == 0 then NotFound
    else
      var o := SkipName(data, offset);
      if o + 10 > |data| then NotFound
      else
        var rdlength := ReadUint16(data, o + 8);
        if ReadUint16(data, o) == 1 && rdlength == 4 then
          if o + 14 <= |data| then Found(data[o + 10..o + 14]) else Unspecified
        else Walk(data, o + 10 + rdlength, left - 1)
  }

  function ReadAnswer(data: Bytes): Answer {
    if |data| < 12 then NotFound else Walk(data, SkipName(data, 12) + 4, ReadUint16(data, 6))
  }

  lemma WalkUnfolds(data: Bytes, offset: nat, left: nat)
    requires left > 0
    ensures var o := SkipName(data, offset);
            Walk(data, offset, left) ==
            if o + 10 > |data| then NotFound
            else if ReadUint16(data, o) == 1 && ReadUint16(data, o + 8) == 4 then
              if o + 14 <= |data| then Found(data[o + 10..o + 14]) else Unspecified
            else Walk(data, o + 10 + ReadUint16(data, o + 8), left - 1)
  {
    hide SkipName, ReadUint16;
  }

  lemma AnswerUnfolds(data: Bytes)
    ensures ReadAnswer(data) ==
            if |data| < 12 then NotFound else Walk(data, SkipName(data, 12) + 4, ReadUint16(data, 6))
  {
    hide Walk, SkipName, ReadUint16;
  }

  method Resolve(data: Bytes) returns (answer: Answer)
    ensures answer == ReadAnswer(data)
  {
    hide *;
    AnswerUnfolds(data);
    if |data| < 12 {
      return NotFound;
    }
    var ancount := ReadUint16(data, 6);
    var offset: nat := SkipNameLoop(data, 12);
    offset := offset + 4;
    if ancount == 0 {
      NothingToWalk(data, offset);
      return NotFound;
    }
    ghost var all := ReadAnswer(data);
    for i: nat := 0 to ancount
      invariant Walk(data, offset, ancount - i) == all
    {
      WalkUnfolds(data, offset, ancount - i);
      offset := SkipNameLoop(data, offset);
      if offset + 10 > |data| {
        return NotFound;
      }
      var rtype := ReadUint16(data, offset);
      var rdlength := ReadUint16(data, offset + 8);
      offset := offset + 10;
      if rtype == 1 && rdlength == 4 {
        if offset + 4 > |data| {
          return Unspecified;
        }
        return Found(data[offset..offset + 4]);
      }
      offset := offset + rdlength;
    }
    NothingToWalk(data, offset);
    return NotFound;
  }

  lemma NothingToWalk(data: Bytes, offset: nat)
    ensures Walk(data, offset, 0) == NotFound
  {
  }

  // ---- well-formed answers ----

  /** A name as it may stand in a message: labels, then a zero octet or a pointer (sections 3.1 and 4.1.4). */
  datatype Name = Plain(labels: seq<string>) | Compressed(labels: seq<string>, high: char, low: char)

  predicate ValidName(n: Name) {
    && (forall i | 0 <= i < |n.labels| :: 1 <= |n.labels[i]| <= 63)
    && (n.Compressed? ==> 192 <= n.high as int < 256)
  }

  function NameBytes(n: Name): Bytes {
    EncodeLabels(n.labels) + (if n.Plain? then [Octet(0)] else [n.high, n.low])
  }

  /** `middle` is the class and the time to live (section 4.1.3). */
  datatype Record = Record(name: Name, rtype: nat, middle: Bytes, rdata: Bytes)

  predicate ValidRecord(r: Record) {
    ValidName(r.name) && r.rtype < 0x1_0000 && |r.middle| == 6 && |r.rdata| < 0x1_0000
  }

  function RecordBytes(r: Record): Bytes
    requires ValidRecord(r)
  {
    NameBytes(r.name) + (Uint16(r.rtype) + (r.middle + (Uint16(|r.rdata|) + r.rdata)))
  }

  predicate ValidRecords(rs: seq<Record>) {
    forall i | 0 <= i < |rs| :: ValidRecord(rs[i])
  }

  function RecordsBytes(rs: seq<Record>): Bytes
    requires ValidRecords(rs)
  {
    if rs == [] then [] else RecordBytes(rs[0]) + RecordsBytes(rs[1..])
  }

  function FirstAddress(rs: seq<Record>): Answer {
    if rs == [] then NotFound
    else if rs[0].rtype == 1 && |rs[0].rdata| == 4 then Found(rs[0].rdata)
    else FirstAddress(rs[1..])
  }

  function Shorter(n: Name): Name
    requires n.labels != []
  {
    n.(labels := n.labels[1..])
  }

  lemma NameUnfolds(n: Name)
    requires n.labels != []
    ensures NameBytes(n) == EncodeLabel(n.labels[0]) + NameBytes(Shorter(n))
  {
    hide EncodeLabel;
    var first, rest := EncodeLabel(n.labels[0]), EncodeLabels(n.labels[1..]);
    var end := if n.Plain? then [Octet(0)] else [n.high, n.low];
    assert first + rest + end == first + (rest + end);
  }

  lemma SkipsBareName(data: Bytes, offset: nat, n: Name)
    requires ValidName(n) && n.labels == [] && At(data, offset, NameBytes(n))
    ensures SkipName(data, offset) == offset + |NameBytes(n)|
  {
    ItemAt(data, offset, NameBytes(n), 0);
    hide At;
  }

  lemma ValidLabels(n: Name)
    requires ValidName(n) && n.labels != []
    ensures Skippable(n.labels[0]) && ValidName(Shorter(n))
  {
  }

  lemma {:induction false} SkipsName(data: Bytes, offset: nat, n: Name)
    requires ValidName(n) && At(data, offset, NameBytes(n))
    ensures SkipName(data, offset) == offset + |NameBytes(n)|
    decreases |n.labels|
  {
    hide EncodeLabels, EncodeLabel, NameBytes, SkipName, At, ValidName, Skippable;
    if n.labels == [] {
      SkipsBareName(data, offset, n);
    } else {
      var segment := n.labels[0];
      NameUnfolds(n);
      ValidLabels(n);
      Halves(data, offset, EncodeLabel(segment), NameBytes(Shorter(n)));
      SkipsOne(data, offset, segment);
      SkipsName(data, offset + 1 + |segment|, Shorter(n));
    }
  }

  /** The fields of a record stand where the walk looks for them, and the next record begins where it goes on. */
  lemma RecordFields(data: Bytes, offset: nat, r: Record)
    requires ValidRecord(r) && At(data, offset, RecordBytes(r))
    ensures var o := offset + |NameBytes(r.name)|;
            && SkipName(data, offset) == o && o + 10 + |r.rdata| <= |data|
            && o + 10 + |r.rdata| == offset + |RecordBytes(r)|
            && ReadUint16(data, o) == r.rtype && ReadUint16(data, o + 8) == |r.rdata|
            && data[o + 10..o + 10 + |r.rdata|] == r.rdata
  {
    hide NameBytes, SkipName, ValidName, At, Uint16, ReadUint16;
    var o := offset + |NameBytes(r.name)|;
    var length := Uint16(|r.rdata|);
    Halves(data, offset, NameBytes(r.name), Uint16(r.rtype) + (r.middle + (length + r.rdata)));
    SkipsName(data, offset, r.name);
    Halves(data, o, Uint16(r.rtype), r.middle + (length + r.rdata));
    Halves(data, o + 2, r.middle, length + r.rdata);
    Halves(data, o + 8, length, r.rdata);
    AtMeans(data, o + 10, r.rdata);
    Uint16At(data, o, r.rtype);
    Uint16At(data, o + 8, |r.rdata|);
  }

  lemma Uint16At(data: Bytes, offset: nat, n: nat)
    requires n < 0x1_0000 && At(data, offset, Uint16(n))
    ensures offset + 2 <= |data| && ReadUint16(data, offset) == n
  {
    ItemAt(data, offset, Uint16(n), 0);
    ItemAt(data, offset, Uint16(n), 1);
  }

  lemma WalkStep(data: Bytes, offset: nat, r: Record, left: nat)
    requires ValidRecord(r) && At(data, offset, RecordBytes(r)) && left > 0
    ensures Walk(data, offset, left) ==
            if r.rtype == 1 && |r.rdata| == 4 then Found(r.rdata) else Walk(data, offset + |RecordBytes(r)|, left - 1)
  {
    hide RecordBytes, NameBytes, SkipName, ValidRecord, ReadUint16, At;
    RecordFields(data, offset, r);
  }

  lemma {:induction false} WalksRecords(data: Bytes, offset: nat, rs: seq<Record>)
    requires ValidRecords(rs) && At(data, offset, RecordsBytes(rs))
    ensures Walk(data, offset, |rs|) == FirstAddress(rs)
    decreases |rs|
  {
    if rs != [] {
      hide RecordBytes, ValidRecord, At, Walk;
      Halves(data, offset, RecordBytes(rs[0]), RecordsBytes(rs[1..]));
      WalkStep(data, offset, rs[0], |rs|);
      WalksRecords(data, offset + |RecordBytes(rs[0])|, rs[1..]);
    }
  }

  /** A response with one question: six octets of header, the answer count, four more, the question, the answers and
      whatever follows them. */
  function Response(head: Bytes, counts: Bytes, question: Name, kind: Bytes, rs: seq<Record>, tail: Bytes): Bytes
    requires |head| == 6 && |counts| == 4 && |kind| == 4 && ValidRecords(rs) && |rs| < 0x1_0000
  {
    head + (Uint16(|rs|) + (counts + (NameBytes(question) + (kind + (RecordsBytes(rs) + tail)))))
  }

  lemma Whole(data: Bytes)
    ensures At(data, 0, data)
  {
  }

  /** The answer to a well-formed response is the data of its first address record, or none if there is none. */
  lemma AnswerIsFirstAddress(head: Bytes, counts: Bytes, question: Name, kind: Bytes, rs: seq<Record>, tail: Bytes)
    requires |head| == 6 && |counts| == 4 && |kind| == 4 && ValidRecords(rs) && |rs| < 0x1_0000 && ValidName(question)
    ensures ReadAnswer(Response(head, counts, question, kind, rs, tail)) == FirstAddress(rs)
  {
    hide NameBytes, SkipName, ValidName, RecordsBytes, ValidRecords, FirstAddress, Walk, ReadUint16, Uint16, At,
        ReadAnswer;
    var data := Response(head, counts, question, kind, rs, tail);
    var name, records := NameBytes(question), RecordsBytes(rs);
    Whole(data);
    AnswerUnfolds(data);
    Halves(data, 0, head, Uint16(|rs|) + (counts + (name + (kind + (records + tail)))));
    Halves(data, 6, Uint16(|rs|), counts + (name + (kind + (records + tail))));
    Halves(data, 8, counts, name + (kind + (records + tail)));
    Halves(data, 12, name, kind + (records + tail));
    Halves(data, 12 + |name|, kind, records + tail);
    Halves(data, 16 + |name|, records, tail);
    Uint16At(data, 6, |rs|);
    SkipsName(data, 12, question);
    WalksRecords(data, 16 + |name|, rs);
  }
}
