/** The DNS question: the encoder of the health probe and the decoder of the stub resolver. */
module DnsQuery {
  import opened Octets
  import opened Text

  /** A Go string as its bytes. */
  predicate IsBytes(s: string) {
    forall i | 0 <= i < |s| :: s[i] as int < 256
  }

  function ToOctets(s: string): (r: seq<Octet>)
    requires IsBytes(s)
    ensures |r| == |s| && forall i | 0 <= i < |s| :: r[i] == s[i] as int
  {
    seq(|s|, i requires 0 <= i < |s| => (s[i] as int) as Octet)
  }

  function FromOctets(o: seq<Octet>): (r: string)
    ensures |r| == |o| && forall i | 0 <= i < |o| :: r[i] as int == o[i]
  {
    seq(|o|, i requires 0 <= i < |o| => o[i] as char)
  }

  lemma OctetsRoundTrip(s: string)
    requires IsBytes(s)
    ensures FromOctets(ToOctets(s)) == s
  {
  }

  function NonEmpty(labels: seq<string>): seq<string> {
    if labels == [] then []
    else if labels[0] == "" then NonEmpty(labels[1..])
    else [labels[0]] + NonEmpty(labels[1..])
  }

  /** The labels of a name. */
  function NameLabels(name: string): seq<string> {
    NonEmpty(Split(name, '.'))
  }

  predicate GoodLabels(labels: seq<string>) {
    forall i | 0 <= i < |labels| :: labels[i] != "" && IsBytes(labels[i]) && '.' !in labels[i]
  }

  // ---------------------------------------------------------------- encoder

  /** Length octet, truncated to eight bits, then the label. */
  function LabelOctets(labels: seq<string>): seq<Octet>
    requires GoodLabels(labels)
  {
    if labels == [] then []
    else [(|labels[0]| % 256) as Octet] + ToOctets(labels[0]) + LabelOctets(labels[1..])
  }

  const HEADER: seq<Octet> := [0x13, 0x37, 0x01, 0x00, 0, 1, 0, 0, 0, 0, 0, 0]

  function Query(labels: seq<string>, qtype: nat): seq<Octet>
    requires GoodLabels(labels) && qtype < 0x1_0000
  {
    HEADER + LabelOctets(labels) + [0] + U16(qtype) + U16(1)
  }

  lemma {:induction false} LabelOctetsSnoc(labels: seq<string>, l: string)
    requires GoodLabels(labels + [l])
    ensures GoodLabels(labels) && IsBytes(l)
    ensures LabelOctets(labels + [l]) == LabelOctets(labels) + [(|l| % 256) as Octet] + ToOctets(l)
  {
    var all := labels + [l];
    assert all[|labels|] == l;
    assert forall i | 0 <= i < |labels| :: labels[i] == all[i];
    if labels == [] {
      assert all[1..] == [];
    } else {
      assert all[1..] == labels[1..] + [l];
      assert forall i | 0 <= i < |all| - 1 :: all[1..][i] == all[i + 1];
      LabelOctetsSnoc(labels[1..], l);
    }
  }

  lemma {:induction false} NonEmptySnoc(labels: seq<string>, l: string)
    ensures NonEmpty(labels + [l]) == NonEmpty(labels) + if l == "" then [] else [l]
  {
    if labels == [] {
      assert (labels + [l])[1..] == [];
    } else {
      assert (labels + [l])[1..] == labels[1..] + [l];
      NonEmptySnoc(labels[1..], l);
    }
  }

  lemma {:induction false} SplitBytes(name: string)
    requires IsBytes(name)
    ensures forall i | 0 <= i < |Split(name, '.')| :: IsBytes(Split(name, '.')[i]) && '.' !in Split(name, '.')[i]
    decreases |name|
  {
    var i := IndexOf(name, '.');
    if i < |name| {
      SplitBytes(name[i + 1..]);
    }
    forall k | 0 <= k < |Split(name, '.')| ensures '.' !in Split(name, '.')[k] {
      assert Split(name, '.')[k] in Split(name, '.');
    }
  }

  lemma {:induction false} NonEmptyGood(labels: seq<string>)
    requires forall i | 0 <= i < |labels| :: IsBytes(labels[i]) && '.' !in labels[i]
    ensures GoodLabels(NonEmpty(labels))
  {
    if labels != [] {
      NonEmptyGood(labels[1..]);
    }
  }

  lemma NameLabelsGood(name: string)
    requires IsBytes(name)
    ensures GoodLabels(NameLabels(name))
  {
    SplitBytes(name);
    NonEmptyGood(Split(name, '.'));
  }

  method BuildQuery(name: string, qtype: nat) returns (msg: seq<Octet>)
    requires IsBytes(name) && qtype < 0x1_0000
    ensures GoodLabels(NameLabels(name)) && msg == Query(NameLabels(name), qtype)
  {
    msg := HEADER;
    var labels := Split(name, '.');
    SplitBytes(name);
    ghost var done: seq<string> := [];
    for i := 0 to |labels|
      invariant done == NonEmpty(labels[..i]) && GoodLabels(done)
      invariant msg == HEADER + LabelOctets(done)
    {
      var l := labels[i];
      assert labels[..i + 1] == labels[..i] + [l];
      NonEmptySnoc(labels[..i], l);
      if l == "" {
        continue;
      }
      LabelOctetsSnoc(done, l);
      msg := msg + [(|l| % 256) as Octet];
      msg := msg + ToOctets(l);
      done := done + [l];
    }
    assert labels[..|labels|] == labels;
    msg := msg + [0];
    msg := msg + (U16(qtype) + U16(1));
  }

  // ---------------------------------------------------------------- decoder

  datatype NameResult = Name(name: string) | ShortPacket | Truncated | BadLabel

  datatype LabelsResult = Labels(parts: seq<string>) | NoEnd | Overrun

  /** The labels from index `idx` up to the zero octet. */
  function ReadLabels(p: seq<Octet>, idx: nat): LabelsResult
    decreases |p| - idx
  {
    if idx >= |p| then NoEnd
    else if p[idx] == 0 then Labels([])
    else if idx + 1 + p[idx] > |p| then Overrun
    else
      match ReadLabels(p, idx + 1 + p[idx])
      case Labels(parts) => Labels([FromOctets(p[idx + 1..idx + 1 + p[idx]])] + parts)
      case r => r
  }

  function QueryName(p: seq<Octet>): NameResult {
    if |p| < 13 then ShortPacket
    else
      match ReadLabels(p, 12)
      case NoEnd => Truncated
      case Overrun => BadLabel
      case Labels(parts) => Name(Join(parts, '.'))
  }

  function Prepend(parts: seq<string>, r: LabelsResult): LabelsResult {
    if r.Labels? then Labels(parts + r.parts) else r
  }

  /** The index loop over any packet. */
  method VpiQueryName(p: seq<Octet>) returns (r: NameResult)
    ensures r == QueryName(p)
  {
    if |p| < 13 {
      return ShortPacket;
    }
    var idx := 12;
    var parts: seq<string> := [];
    while true
      invariant 12 <= idx <= |p|
      invariant ReadLabels(p, 12) == Prepend(parts, ReadLabels(p, idx))
      decreases |p| - idx
    {
      if idx >= |p| {
        return Truncated;
      }
      var length: nat := p[idx];
      if length == 0 {
        break;
      }
      if idx + 1 + length > |p| {
        return BadLabel;
      }
      var l := FromOctets(p[idx + 1..idx + 1 + length]);
      ghost var rest := ReadLabels(p, idx + 1 + length);
      assert rest.Labels? ==> parts + ([l] + rest.parts) == parts + [l] + rest.parts;
      parts := parts + [l];
      idx := idx + (1 + length);
    }
    assert parts + [] == parts;
    return Name(Join(parts, '.'));
  }

  // ---------------------------------------------------------------- round trip

  predicate AllShort(labels: seq<string>) {
    forall i | 0 <= i < |labels| :: |labels[i]| <= 255
  }

  /** Reading depends only on the octets from the index on. */
  lemma {:induction false} ReadShift(pre: seq<Octet>, p: seq<Octet>, idx: nat)
    ensures ReadLabels(pre + p, |pre| + idx) == ReadLabels(p, idx)
    decreases |p| - idx
  {
    if idx < |p| && p[idx] != 0 && idx + 1 + p[idx] <= |p| {
      var n := p[idx];
      assert (pre + p)[|pre| + idx + 1..|pre| + idx + 1 + n] == p[idx + 1..idx + 1 + n];
      ReadShift(pre, p, idx + 1 + n);
    }
  }

  lemma ReadOne(l: string, rest: seq<Octet>)
    requires IsBytes(l) && 1 <= |l| <= 255
    ensures ReadLabels([(|l| % 256) as Octet] + ToOctets(l) + rest, 0) == Prepend([l], ReadLabels(rest, 0))
  {
    var pre := [(|l| % 256) as Octet] + ToOctets(l);
    var p := pre + rest;
    assert p[1..1 + |l|] == ToOctets(l);
    OctetsRoundTrip(l);
    ReadShift(pre, rest, 0);
    ReadFirst(p, |l|);
  }

  lemma ReadFirst(p: seq<Octet>, n: nat)
    requires 1 <= n < |p| && p[0] == n
    ensures ReadLabels(p, 0) == Prepend([FromOctets(p[1..1 + n])], ReadLabels(p, 1 + n))
  {
  }

  lemma TailGood(labels: seq<string>)
    requires labels != [] && GoodLabels(labels)
    ensures GoodLabels(labels[1..])
  {
    assert forall i | 0 <= i < |labels| - 1 :: labels[1..][i] == labels[i + 1];
  }

  lemma FirstLabel(labels: seq<string>, tail: seq<Octet>)
    requires labels != [] && GoodLabels(labels)
    ensures LabelOctets(labels) + [0] + tail
         == [(|labels[0]| % 256) as Octet] + ToOctets(labels[0]) + (LabelOctets(labels[1..]) + [0] + tail)
  {
  }

  lemma {:induction false} ShortLabelsRead(labels: seq<string>, tail: seq<Octet>)
    requires GoodLabels(labels) && AllShort(labels)
    ensures ReadLabels(LabelOctets(labels) + [0] + tail, 0) == Labels(labels)
  {
    if labels == [] {
      assert LabelOctets(labels) + [0] + tail == [0] + tail;
    } else {
      var l := labels[0];
      var rest := LabelOctets(labels[1..]) + [0] + tail;
      TailGood(labels);
      assert AllShort(labels[1..]) by {
        assert forall i | 0 <= i < |labels| - 1 :: labels[1..][i] == labels[i + 1];
      }
      ShortLabelsRead(labels[1..], tail);
      FirstLabel(labels, tail);
      ReadOne(l, rest);
      assert [l] + labels[1..] == labels;
    }
  }

  /** A label of 256 octets or more is never read back. */
  lemma LongLabelMisread(l: string, rest: seq<Octet>, more: seq<string>)
    requires IsBytes(l) && |l| > 255 && '.' !in l
    ensures var r := ReadLabels([(|l| % 256) as Octet] + ToOctets(l) + rest, 0);
            r.Labels? ==> Join(r.parts, '.') != Join([l] + more, '.')
  {
    var n := |l| % 256;
    var p := [n as Octet] + ToOctets(l) + rest;
    var r := ReadLabels(p, 0);
    var want := Join([l] + more, '.');
    JoinHead(l, more);
    assert want[n] == l[n];
    if r.Labels? && n > 0 {
      assert p[1..1 + n] == ToOctets(l)[..n];
      var first := FromOctets(p[1..1 + n]);
      assert |first| == n && r.parts[0] == first;
      assert r.parts == [first] + r.parts[1..];
      JoinHead(first, r.parts[1..]);
    }
  }

  /** A join starts with its first part, followed by the end or by the separator. */
  lemma JoinHead(l: string, more: seq<string>)
    ensures var s := Join([l] + more, '.');
            |l| <= |s| && s[..|l|] == l && (if more == [] then |s| == |l| else |s| > |l| && s[|l|] == '.')
  {
    assert ([l] + more)[1..] == more;
  }

  lemma JoinConsDiffers(l: string, a: seq<string>, b: seq<string>)
    requires b != [] && Join(a, '.') != Join(b, '.')
    ensures Join([l] + a, '.') != Join([l] + b, '.')
  {
    JoinCons(l, b);
    if a == [] {
      assert [l] + a == [l];
    } else {
      JoinCons(l, a);
    }
  }

  lemma JoinCons(l: string, more: seq<string>)
    requires more != []
    ensures var s := Join([l] + more, '.');
            |s| == |l| + 1 + |Join(more, '.')| && s[|l| + 1..] == Join(more, '.')
  {
    assert ([l] + more)[1..] == more;
  }

  lemma {:induction false} LongLabelsMisread(labels: seq<string>, tail: seq<Octet>)
    requires GoodLabels(labels) && !AllShort(labels)
    ensures var r := ReadLabels(LabelOctets(labels) + [0] + tail, 0);
            r.Labels? ==> Join(r.parts, '.') != Join(labels, '.')
  {
    var l := labels[0];
    var more := labels[1..];
    var rest := LabelOctets(more) + [0] + tail;
    TailGood(labels);
    assert labels == [l] + more;
    assert LabelOctets(labels) + [0] + tail == [(|l| % 256) as Octet] + ToOctets(l) + rest;
    if |l| > 255 {
      LongLabelMisread(l, rest, more);
    } else {
      assert !AllShort(more) by {
        var i :| 0 <= i < |labels| && |labels[i]| > 255;
        assert more[i - 1] == labels[i];
      }
      LongLabelsMisread(more, tail);
      ReadOne(l, rest);
      var r := ReadLabels(rest, 0);
      if r.Labels? {
        JoinConsDiffers(l, r.parts, more);
      }
    }
  }

  /** The stub decodes the probe's question to the dot-join of its labels exactly when every label
      has at most 255 octets. */
  lemma QuestionRoundTrip(name: string, qtype: nat)
    requires IsBytes(name) && qtype < 0x1_0000
    ensures GoodLabels(NameLabels(name))
    ensures QueryName(Query(NameLabels(name), qtype)) == Name(Join(NameLabels(name), '.'))
       <==> AllShort(NameLabels(name))
  {
    NameLabelsGood(name);
    var labels := NameLabels(name);
    var tail := U16(qtype) + U16(1);
    var body := LabelOctets(labels) + [0] + tail;
    assert Query(labels, qtype) == HEADER + body;
    ReadShift(HEADER, body, 0);
    if AllShort(labels) {
      ShortLabelsRead(labels, tail);
    } else {
      LongLabelsMisread(labels, tail);
    }
  }

  // ---------------------------------------------------------------- the other fields

  /** A built query asks one question, with recursion desired: the name, then type and class, and
      nothing after them. */
  lemma QueryFields(labels: seq<string>, qtype: nat)
    requires GoodLabels(labels) && qtype < 0x1_0000
    ensures var q := Query(labels, qtype);
            var n := 12 + |LabelOctets(labels)|;
            && |q| == n + 5
            && FromU16(q[0..2]) == 0x1337 && FromU16(q[2..4]) == 0x0100 && FromU16(q[4..6]) == 1
            && (forall i | 6 <= i < 12 :: q[i] == 0)
            && q[n] == 0 && FromU16(q[n + 1..n + 3]) == qtype && FromU16(q[n + 3..n + 5]) == 1
  {
    var q := Query(labels, qtype);
    var n := 12 + |LabelOctets(labels)|;
    assert q[0..2] == [0x13, 0x37] && q[2..4] == [0x01, 0x00] && q[4..6] == [0, 1];
    assert q[n + 1..n + 3] == U16(qtype);
    assert q[n + 3..n + 5] == U16(1);
  }

  // ---------------------------------------------------------------- names and packets

  lemma {:induction false} NoneEmpty(labels: seq<string>)
    requires forall i | 0 <= i < |labels| :: labels[i] != ""
    ensures NonEmpty(labels) == labels
  {
    if labels != [] {
      NoneEmpty(labels[1..]);
    }
  }

  lemma SplitFinalDot(name: string)
    ensures Split(name + ".", '.') == Split(name, '.') + [""]
  {
    var parts := Split(name, '.');
    JoinOfSplit(name, '.');
    JoinSnoc(parts, "", '.');
    assert Join(parts + [""], '.') == name + ['.'] + "" == name + ".";
    SplitJoin(parts + [""], '.');
  }

  /** A name without empty labels, with or without a final dot, is asked for and read back as it is, iff
      its labels have at most 255 octets. */
  lemma NameRoundTrip(name: string, dot: string, qtype: nat)
    requires IsBytes(name) && qtype < 0x1_0000 && (dot == "" || dot == ".")
    requires forall i | 0 <= i < |Split(name, '.')| :: Split(name, '.')[i] != ""
    ensures IsBytes(name + dot) && GoodLabels(NameLabels(name + dot))
    ensures QueryName(Query(NameLabels(name + dot), qtype)) == Name(name) <==> AllShort(Split(name, '.'))
  {
    var parts := Split(name, '.');
    NoneEmpty(parts);
    JoinOfSplit(name, '.');
    if dot == "." {
      SplitFinalDot(name);
      NonEmptySnoc(parts, "");
      assert NonEmpty(parts) + [] == NonEmpty(parts);
    } else {
      assert name + dot == name;
    }
    QuestionRoundTrip(name + dot, qtype);
  }

  /** A bare header is refused; a zero octet after it asks for the root. */
  lemma RootQuestion(header: seq<Octet>)
    requires |header| == 12
    ensures QueryName(header) == ShortPacket && QueryName(header + [0]) == Name("")
  {
  }
}
