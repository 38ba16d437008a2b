/**
  The DNS client's wire format (src/net/dns.cpp): encoding a host name, skipping a name,
  and finding the address in a reply.
 */
module Dns {
  import opened Machine

  const DOT: u8 := 0x2E
  const TYPE_A: nat := 1
  const HEADER: nat := 12

  // ------------------------------------------------------------ names in a message

  /** skip_name: the position behind the name at p; positions beyond the end stand for the end. */
  function SkipName(msg: seq<u8>, p: nat): (q: nat)
    decreases |msg| - p
  {
    if p >= |msg| then |msg|
    else if msg[p] == 0 then p + 1
    else if msg[p] >= 0xC0 then p + 2
    else SkipName(msg, p + 1 + msg[p])
  }

  /** A name as sections 3.1 and 4.1.4 of RFC 1035 write it: labels, then the root or a pointer. */
  datatype Tail = Root | Pointer(hi: nat, lo: u8)
  datatype Name = Name(labels: seq<seq<u8>>, tail: Tail)

  predicate LabelOk(l: seq<u8>) { 1 <= |l| <= 63 }

  predicate NameOk(n: Name)
  {
    (forall i :: 0 <= i < |n.labels| ==> LabelOk(n.labels[i])) && (n.tail.Pointer? ==> n.tail.hi < 0x40)
  }

  function LabelBytes(labels: seq<seq<u8>>): (b: seq<u8>)
    requires forall i :: 0 <= i < |labels| ==> LabelOk(labels[i])
  {
    if labels == [] then []
    else
      assert LabelOk(labels[0]);
      var len: u8 := |labels[0]|;
      [len] + labels[0] + LabelBytes(labels[1..])
  }

  function TailBytes(t: Tail): (b: seq<u8>)
    requires t.Pointer? ==> t.hi < 0x40
    ensures |b| >= 1
  {
    match t
    case Root => [0]
    case Pointer(hi, lo) => [0xC0 + hi, lo]
  }

  function NameBytes(n: Name): (b: seq<u8>)
    requires NameOk(n)
    ensures |b| >= 1
  {
    LabelBytes(n.labels) + TailBytes(n.tail)
  }

  /** The message has these bytes at position p. */
  predicate At(msg: seq<u8>, p: nat, b: seq<u8>)
  {
    p + |b| <= |msg| && msg[p..p + |b|] == b
  }

  lemma AtConcat(msg: seq<u8>, p: nat, a: seq<u8>, b: seq<u8>)
    requires At(msg, p, a + b)
    ensures At(msg, p, a) && At(msg, p + |a|, b)
  {
    assert msg[p..p + |a|] == msg[p..p + |a + b|][..|a|];
    assert msg[p + |a|..p + |a| + |b|] == msg[p..p + |a + b|][|a|..];
  }

  lemma AtIndex(msg: seq<u8>, p: nat, b: seq<u8>, i: nat)
    requires At(msg, p, b) && i < |b|
    ensures p + i < |msg| && msg[p + i] == b[i]
  {
    assert msg[p..p + |b|][i] == b[i];
  }

  /** Skipping lands exactly behind the name, whatever follows. */
  lemma NoLabels(n: Name)
    requires NameOk(n) && n.labels == []
    ensures NameBytes(n) == TailBytes(n.tail)
  {
    assert [] + TailBytes(n.tail) == TailBytes(n.tail);
  }

  lemma FirstLabel(n: Name)
    requires NameOk(n) && n.labels != []
    ensures var l, rest := n.labels[0], Name(n.labels[1..], n.tail);
      LabelOk(l) && NameOk(rest) && NameBytes(n) == ([|l|] + l) + NameBytes(rest)
  {
  }

  lemma {:induction false} SkipNameSkips(msg: seq<u8>, p: nat, n: Name)
    requires NameOk(n) && At(msg, p, NameBytes(n))
    ensures SkipName(msg, p) == p + |NameBytes(n)|
    decreases |n.labels|
  {
    hide At, LabelBytes, NameBytes;
    if n.labels == [] {
      NoLabels(n);
      AtIndex(msg, p, NameBytes(n), 0);
    } else {
      var l, rest := n.labels[0], Name(n.labels[1..], n.tail);
      FirstLabel(n);
      AtConcat(msg, p, [|l|] + l, NameBytes(rest));
      AtIndex(msg, p, [|l|] + l, 0);
      SkipNameSkips(msg, p + 1 + |l|, rest);
    }
  }

  // ------------------------------------------------------------ encoding a host name

  function AfterDot(s: seq<u8>): (r: seq<u8>)
    requires s != []
    ensures |r| < |s|
  {
    var n := Before(s, DOT);
    if n < |s| then s[n + 1..] else []
  }

  /** The length of a label as its length byte says it. */
  function LengthByte(n: nat): (b: u8)
    ensures b <= n && (n < 256 ==> b == n)
  {
    n % 256
  }

  /** The bytes encode_name writes from position pos on, in a buffer of max bytes.  For max < 2 the code's unsigned
      max - 2 wraps, but then the test of the room left fails at once, with the same result. */
  function Encode(name: seq<u8>, pos: nat, max: nat): (b: seq<u8>)
    ensures |b| >= 1
    decreases |name|
  {
    if name == [] || pos >= max - 2 then [0]
    else
      var n := Before(name, DOT);
      var len := LengthByte(n);
      if pos + 1 + len >= max then [0]
      else [len] + name[..n] + Encode(AfterDot(name), pos + 1 + n, max)
  }

  /** The label that starts at index t passes the test of the room left, but it is longer than its length byte can say
      and reaches past the buffer. */
  predicate TooLong(name: seq<u8>, t: nat, max: nat)
  {
    && t < |name| && (t == 0 || name[t - 1] == DOT)
    && var n := Before(name[t..], DOT);
    && t < max - 2 && t + 1 + LengthByte(n) < max <= t + 1 + n
  }

  predicate OverrunsFrom(name: seq<u8>, pos: nat, max: nat) { exists t :: pos <= t < |name| && TooLong(name, t, max) }

  predicate Overruns(name: seq<u8>, max: nat) { OverrunsFrom(name, 0, max) }

  /** What is written stays inside the buffer exactly if there is one and no label of the name overruns it. */
  lemma EncodeFitsIff(name: seq<u8>, max: nat)
    ensures |Encode(name, 0, max)| <= max <==> max > 0 && !Overruns(name, max)
  {
    hide TooLong;
    if max > 0 { FitsFrom(name, 0, max); }
  }

  /** What is left of the name when pos bytes are written: labels lie in the buffer where they lie in the name. */
  function Left(name: seq<u8>, pos: nat): (r: seq<u8>) { if pos <= |name| then name[pos..] else [] }

  predicate LabelStart(name: seq<u8>, pos: nat) { pos == 0 || pos > |name| || name[pos - 1] == DOT }

  lemma {:induction false} FitsFrom(name: seq<u8>, pos: nat, max: nat)
    requires pos < max && LabelStart(name, pos)
    ensures pos + |Encode(Left(name, pos), pos, max)| <= max <==> !OverrunsFrom(name, pos, max)
    decreases max - pos
  {
    hide Before, Encode, AfterDot, Left, OverrunsFrom, LabelStart, LengthByte;
    var rest := Left(name, pos);
    if rest != [] && pos < max - 2 && pos + 1 + LengthByte(Before(rest, DOT)) < max {
      var next := pos + 1 + Before(rest, DOT);
      EncodeStep(rest, pos, max);
      LabelEnds(name, pos, max);
      if next < max { FitsFrom(name, next, max); }
    } else {
      EncodeEnd(rest, pos, max);
      StopsHere(name, pos, max);
    }
  }

  /** The next label starts behind the next dot. */
  lemma LabelEnds(name: seq<u8>, pos: nat, max: nat)
    requires LabelStart(name, pos) && Left(name, pos) != []
    requires pos < max - 2 && pos + 1 + LengthByte(Before(Left(name, pos), DOT)) < max
    ensures var next := pos + 1 + Before(Left(name, pos), DOT);
      && AfterDot(Left(name, pos)) == Left(name, next) && LabelStart(name, next)
      && (OverrunsFrom(name, pos, max) <==> max <= next || OverrunsFrom(name, next, max))
  {
    hide Before, LengthByte;
    var rest := name[pos..];
    var next := pos + 1 + Before(rest, DOT);
    assert TooLong(name, pos, max) <==> max <= next;
    forall t | pos < t < next && t < |name| ensures !TooLong(name, t, max) {
      assert name[t - 1] == rest[t - 1 - pos];
    }
    assert next <= |name| ==> name[next - 1] == rest[next - 1 - pos];
  }

  /** Where the encoder stops, no later label could overrun. */
  lemma StopsHere(name: seq<u8>, pos: nat, max: nat)
    requires Left(name, pos) != [] ==> pos >= max - 2 || pos + 1 + LengthByte(Before(Left(name, pos), DOT)) >= max
    ensures !OverrunsFrom(name, pos, max)
  {
    hide Before, LengthByte;
    forall t | pos < t < |name| ensures !TooLong(name, t, max) {
      var rest := name[pos..];
      assert rest[t - 1 - pos] == name[t - 1];
      assert name[t - 1] == DOT ==> t - 1 - pos >= Before(rest, DOT);
    }
  }

  /** Labels a length byte can say never overrun. */
  lemma ShortLabelsFit(name: seq<u8>, max: nat)
    requires LabelsFit(name)
    ensures !Overruns(name, max)
  {
    hide Before, LabelsFit, LengthByte;
    forall t | 0 <= t < |name| ensures !TooLong(name, t, max) {
      if t == 0 || name[t - 1] == DOT {
        ShortFrom(name, t);
      }
    }
  }

  lemma {:induction false} ShortFrom(name: seq<u8>, t: nat)
    requires LabelsFit(name) && t < |name| && (t == 0 || name[t - 1] == DOT)
    ensures Before(name[t..], DOT) < 256
    decreases |name|
  {
    hide Before, AfterDot;
    if t == 0 {
      assert name[0..] == name;
    } else {
      LaterLabel(name, t);
      ShortFrom(AfterDot(name), t - 1 - Before(name, DOT));
    }
  }

  /** A label behind the first one, seen from behind the first dot. */
  lemma LaterLabel(name: seq<u8>, t: nat)
    requires 0 < t < |name| && name[t - 1] == DOT
    ensures var rest, k := AfterDot(name), t - 1 - Before(name, DOT);
      0 <= k < |rest| && (k == 0 || rest[k - 1] == DOT) && rest[k..] == name[t..]
  {
    hide Before;
    var n, rest := Before(name, DOT), AfterDot(name);
    assert t - 1 >= n;
    assert rest == name[n + 1..];
  }

  predicate LabelsFit(name: seq<u8>)
    decreases |name|
  {
    name == [] || (Before(name, DOT) < 256 && LabelsFit(AfterDot(name)))
  }

  /** A label of 600 bytes and a buffer of 500: the length byte says 88, all 600 are written. */
  lemma LongLabelOverruns()
    ensures var name: seq<u8> := seq(600, _ => 97);
      Overruns(name, 500) && |Encode(name, 0, 500)| == 602
  {
    var name: seq<u8> := seq(600, _ => 97);
    BeforeIs(name, DOT, 600);
    assert name[0..] == name && AfterDot(name) == [];
    assert TooLong(name, 0, 500);
  }

  /** Labels with dots between them. */
  function Dotted(labels: seq<seq<u8>>): (name: seq<u8>)
  {
    if labels == [] then [] else if |labels| == 1 then labels[0] else labels[0] + [DOT] + Dotted(labels[1..])
  }

  predicate HostOk(labels: seq<seq<u8>>)
  {
    forall i :: 0 <= i < |labels| ==> LabelOk(labels[i]) && DOT !in labels[i]
  }

  lemma DottedHead(labels: seq<seq<u8>>)
    requires HostOk(labels) && labels != []
    ensures var s := Dotted(labels);
      s != [] && Before(s, DOT) == |labels[0]| && s[..|labels[0]|] == labels[0] && AfterDot(s) == Dotted(labels[1..])
  {
    var s, n := Dotted(labels), |labels[0]|;
    assert LabelOk(labels[0]) && DOT !in labels[0];
    assert forall i :: 0 <= i < n ==> s[i] == labels[0][i] && labels[0][i] in labels[0];
    if |labels| > 1 {
      assert s[n] == DOT && s[n + 1..] == Dotted(labels[1..]);
    }
    BeforeIs(s, DOT, n);
  }

  /** A host name of proper labels is encoded as its wire form, given a buffer that holds it. */
  lemma {:induction false} EncodeIsWire(labels: seq<seq<u8>>, pos: nat, max: nat)
    requires HostOk(labels) && pos + |NameBytes(Name(labels, Root))| <= max
    ensures Encode(Dotted(labels), pos, max) == NameBytes(Name(labels, Root))
    ensures LabelsFit(Dotted(labels))
    decreases |labels|
  {
    hide Before, AfterDot;
    if labels != [] {
      DottedHead(labels);
      var l, rest := labels[0], labels[1..];
      assert LabelOk(l);
      assert NameBytes(Name(labels, Root)) == [|l|] + l + NameBytes(Name(rest, Root));
      EncodeIsWire(rest, pos + 1 + |l|, max);
    }
  }

  /** skip_name lands exactly behind encode_name's output, whatever follows it. */
  lemma SkipUndoesEncode(labels: seq<seq<u8>>, max: nat, before: seq<u8>, after: seq<u8>)
    requires HostOk(labels) && |NameBytes(Name(labels, Root))| <= max
    ensures var e := Encode(Dotted(labels), 0, max);
      SkipName(before + e + after, |before|) == |before| + |e|
  {
    EncodeIsWire(labels, 0, max);
    var e := Encode(Dotted(labels), 0, max);
    var msg := before + e + after;
    assert msg[|before|..|before| + |e|] == e;
    SkipNameSkips(msg, |before|, Name(labels, Root));
  }

  // ------------------------------------------------------------ replies

  datatype Question = Question(name: Name, rest: seq<u8>)
  datatype Record = Record(name: Name, kind: u16, middle: seq<u8>, rdata: seq<u8>)

  predicate QuestionOk(q: Question) { NameOk(q.name) && |q.rest| == 4 }
  predicate RecordOk(r: Record) { NameOk(r.name) && |r.middle| == 6 && |r.rdata| < U16 }

  function FixedBytes(r: Record): (b: seq<u8>)
    requires RecordOk(r)
    ensures |b| == 10
  {
    [r.kind / 256, r.kind % 256] + r.middle + [|r.rdata| / 256, |r.rdata| % 256]
  }

  function RecordBytes(r: Record): (b: seq<u8>)
    requires RecordOk(r)
  {
    NameBytes(r.name) + (FixedBytes(r) + r.rdata)
  }

  function QuestionsBytes(qs: seq<Question>): (b: seq<u8>)
    requires forall i :: 0 <= i < |qs| ==> QuestionOk(qs[i])
  {
    if qs == [] then []
    else
      assert QuestionOk(qs[0]);
      (NameBytes(qs[0].name) + qs[0].rest) + QuestionsBytes(qs[1..])
  }

  function RecordsBytes(rs: seq<Record>): (b: seq<u8>)
    requires forall i :: 0 <= i < |rs| ==> RecordOk(rs[i])
  {
    if rs == [] then []
    else
      assert RecordOk(rs[0]);
      RecordBytes(rs[0]) + RecordsBytes(rs[1..])
  }

  /** The data of the first address record. */
  function FirstAddress(rs: seq<Record>): (a: Option<seq<u8>>)
  {
    if rs == [] then None
    else if rs[0].kind == TYPE_A && |rs[0].rdata| == 4 then Some(rs[0].rdata)
    else FirstAddress(rs[1..])
  }

  // ------------------------------------------------------------ the parser

  /** The loop over the question section. */
  function SkipQuestions(msg: seq<u8>, p: nat, n: nat): (q: nat)
    decreases n
  {
    if n == 0 then p else SkipQuestions(msg, SkipName(msg, p) + 4, n - 1)
  }

  /** The loop over the answer section. */
  function FindAddress(msg: seq<u8>, p: nat, n: nat): (a: Option<seq<u8>>)
    decreases n
  {
    if n == 0 || p >= |msg| then None
    else
      var q := SkipName(msg, p);
      if q + 10 > |msg| then None
      else
        var kind, len := Pair(msg[q], msg[q + 1]), Pair(msg[q + 8], msg[q + 9]);
        if kind == TYPE_A && len == 4 && q + 10 + 4 <= |msg| then Some(msg[q + 10..q + 14])
        else FindAddress(msg, q + 10 + len, n - 1)
  }

  lemma {:induction false} QuestionsSkipped(msg: seq<u8>, p: nat, qs: seq<Question>)
    requires (forall i :: 0 <= i < |qs| ==> QuestionOk(qs[i])) && At(msg, p, QuestionsBytes(qs))
    ensures SkipQuestions(msg, p, |qs|) == p + |QuestionsBytes(qs)|
    decreases |qs|
  {
    hide At, NameBytes, SkipName, NameOk;
    if qs != [] {
      var q := qs[0];
      assert QuestionOk(q);
      AtConcat(msg, p, NameBytes(q.name) + q.rest, QuestionsBytes(qs[1..]));
      AtConcat(msg, p, NameBytes(q.name), q.rest);
      SkipNameSkips(msg, p, q.name);
      QuestionsSkipped(msg, p + |NameBytes(q.name)| + 4, qs[1..]);
    }
  }

  /** The fields the parser reads from a record at position p. */
  lemma RecordFields(msg: seq<u8>, p: nat, r: Record)
    requires RecordOk(r) && At(msg, p, RecordBytes(r))
    ensures var q := SkipName(msg, p);
      && q == p + |NameBytes(r.name)| && q + 10 + |r.rdata| <= |msg|
      && Pair(msg[q], msg[q + 1]) == r.kind && Pair(msg[q + 8], msg[q + 9]) == |r.rdata|
      && msg[q + 10..q + 10 + |r.rdata|] == r.rdata
  {
    hide SkipName, NameBytes, NameOk;
    AtConcat(msg, p, NameBytes(r.name), FixedBytes(r) + r.rdata);
    SkipNameSkips(msg, p, r.name);
    var q := p + |NameBytes(r.name)|;
    AtConcat(msg, q, FixedBytes(r), r.rdata);
    var b := FixedBytes(r);
    AtIndex(msg, q, b, 0);
    AtIndex(msg, q, b, 1);
    AtIndex(msg, q, b, 8);
    AtIndex(msg, q, b, 9);
  }

  /** The parse loop returns the first address record of the answer section, whatever follows. */
  lemma RecordSize(r: Record)
    requires RecordOk(r)
    ensures |RecordBytes(r)| == |NameBytes(r.name)| + 10 + |r.rdata|
  {
  }

  lemma {:induction false} AnswersParsed(msg: seq<u8>, p: nat, rs: seq<Record>)
    requires (forall i :: 0 <= i < |rs| ==> RecordOk(rs[i])) && At(msg, p, RecordsBytes(rs))
    ensures FindAddress(msg, p, |rs|) == FirstAddress(rs)
    decreases |rs|
  {
    hide At, NameBytes, SkipName, FixedBytes, RecordOk, Pair;
    if rs != [] {
      var r := rs[0];
      assert RecordOk(r);
      AtConcat(msg, p, RecordBytes(r), RecordsBytes(rs[1..]));
      RecordFields(msg, p, r);
      RecordSize(r);
      AnswersParsed(msg, p + |RecordBytes(r)|, rs[1..]);
    }
  }

  // ------------------------------------------------------------ a whole reply

  const FLAG_QR: nat := 0x8000
  const RCODE_MASK: nat := 0x000F

  function Field16(msg: seq<u8>, at: nat): (v: nat)
    requires at + 1 < |msg|
  {
    Pair(msg[at], msg[at + 1])
  }

  /** What resolve makes of one received message: the address, or nothing. */
  function Answer(msg: seq<u8>, txid: u16): (a: Option<seq<u8>>)
  {
    if |msg| < HEADER then None
    else if Field16(msg, 0) != txid then None
    else if And(Field16(msg, 2), FLAG_QR) == 0 then None
    else if And(Field16(msg, 2), RCODE_MASK) != 0 then None
    else if Field16(msg, 6) == 0 then None
    else FindAddress(msg, SkipQuestions(msg, HEADER, Field16(msg, 4)), Field16(msg, 6))
  }

  /** Every message that yields an address is a reply to this query without an error, and the address is the data of a
      record of type A with four bytes. */
  lemma AnswerIsReply(msg: seq<u8>, txid: u16)
    requires Answer(msg, txid).Some?
    ensures |msg| >= 12 && msg[0] == txid / 256 && msg[1] == txid % 256 && msg[2] >= 128 && msg[3] % 16 == 0
    ensures msg[6] > 0 || msg[7] > 0
    ensures exists q :: 12 <= q && q + 14 <= |msg| && AddressAt(msg, q, Answer(msg, txid).value)
  {
    hide And, SkipQuestions, FindAddress;
    HeaderFlags(msg[2], msg[3]);
    AddressFound(msg, SkipQuestions(msg, HEADER, Field16(msg, 4)), Field16(msg, 6));
    QuestionsAhead(msg, HEADER, Field16(msg, 4));
  }

  /** The fixed part of a record of type A, length 4, followed by these bytes. */
  predicate AddressAt(msg: seq<u8>, q: int, a: seq<u8>)
  {
    && 0 <= q && q + 14 <= |msg| && msg[q] == 0 && msg[q + 1] == 1 && msg[q + 8] == 0 && msg[q + 9] == 4
    && a == msg[q + 10..q + 14]
  }

  lemma HeaderFlags(hi: u8, lo: u8)
    ensures And(Pair(hi, lo), FLAG_QR) != 0 <==> hi >= 128
    ensures And(Pair(hi, lo), RCODE_MASK) == lo % 16
  {
    hide And;
    var f := 256 * hi + lo;
    AndBit15(f);
    AndFifteen(f);
    assert f / 0x8000 == hi / 128 && f % 16 == lo % 16;
  }

  lemma {:induction false} AddressFound(msg: seq<u8>, p: nat, n: nat)
    requires FindAddress(msg, p, n).Some?
    ensures exists q :: p <= q && q + 14 <= |msg| && AddressAt(msg, q, FindAddress(msg, p, n).value)
    decreases n
  {
    hide SkipName;
    SkipAhead(msg, p);
    var q := SkipName(msg, p);
    var len := Pair(msg[q + 8], msg[q + 9]);
    if Pair(msg[q], msg[q + 1]) == TYPE_A && len == 4 && q + 14 <= |msg| {
      assert AddressAt(msg, q, FindAddress(msg, p, n).value);
    } else {
      AddressFound(msg, q + 10 + len, n - 1);
    }
  }

  lemma {:induction false} SkipAhead(msg: seq<u8>, p: nat)
    ensures SkipName(msg, p) >= Min(p, |msg|)
    decreases |msg| - p
  {
    if p < |msg| && 0 < msg[p] < 0xC0 { SkipAhead(msg, p + 1 + msg[p]); }
  }

  lemma {:induction false} QuestionsAhead(msg: seq<u8>, p: nat, n: nat)
    ensures SkipQuestions(msg, p, n) >= Min(p, |msg|)
    decreases n
  {
    hide SkipName;
    if n != 0 {
      SkipAhead(msg, p);
      QuestionsAhead(msg, SkipName(msg, p) + 4, n - 1);
    }
  }

  function HeaderBytes(txid: u16, flags: u16, qd: u16, an: u16, counts: seq<u8>): (b: seq<u8>)
    requires |counts| == 4
    ensures |b| == HEADER
  {
    [txid / 256, txid % 256, flags / 256, flags % 256, qd / 256, qd % 256, an / 256, an % 256] + counts
  }

  /** For every well-formed message: its first address record, if it is a reply to this query without an error. */
  lemma ReplyParsed(txid: u16, id: u16, flags: u16, counts: seq<u8>, qs: seq<Question>, rs: seq<Record>,
                    more: seq<u8>)
    requires |counts| == 4 && |qs| < U16 && |rs| < U16
    requires forall i :: 0 <= i < |qs| ==> QuestionOk(qs[i])
    requires forall i :: 0 <= i < |rs| ==> RecordOk(rs[i])
    ensures var header: seq<u8> := [id / 256, id % 256, flags / 256, flags % 256,
                                    |qs| / 256, |qs| % 256, |rs| / 256, |rs| % 256] + counts;
      Answer(header + QuestionsBytes(qs) + RecordsBytes(rs) + more, txid) ==
        if id == txid && flags >= 0x8000 && flags % 16 == 0 then FirstAddress(rs) else None
  {
    hide QuestionsBytes, RecordsBytes, FirstAddress, Answer, Pair;
    HeaderFields(id, flags, |qs|, |rs|, counts);
    FlagParts(flags);
    ReplyBehind(txid, HeaderBytes(id, flags, |qs|, |rs|, counts), qs, rs, more);
  }

  lemma ReplyBehind(txid: u16, h: seq<u8>, qs: seq<Question>, rs: seq<Record>, more: seq<u8>)
    requires |h| == HEADER && Field16(h, 4) == |qs| && Field16(h, 6) == |rs|
    requires forall i :: 0 <= i < |qs| ==> QuestionOk(qs[i])
    requires forall i :: 0 <= i < |rs| ==> RecordOk(rs[i])
    ensures Answer(h + QuestionsBytes(qs) + RecordsBytes(rs) + more, txid) ==
      if Field16(h, 0) == txid && h[2] >= 128 && h[3] % 16 == 0 then FirstAddress(rs) else None
  {
    hide QuestionsBytes, RecordsBytes, SkipQuestions, FindAddress, And, At, Pair;
    HeaderFlags(h[2], h[3]);
    var q, r := QuestionsBytes(qs), RecordsBytes(rs);
    var msg := h + q + r + more;
    ReplyLayout(h, q, r, more);
    QuestionsSkipped(msg, HEADER, qs);
    AnswersParsed(msg, HEADER + |q|, rs);
  }

  lemma FlagParts(flags: u16)
    ensures (flags / 256 >= 128 <==> flags >= 0x8000) && flags % 256 % 16 == flags % 16
  {
  }

  lemma HeaderFields(txid: u16, flags: u16, qd: u16, an: u16, counts: seq<u8>)
    requires |counts| == 4
    ensures var h := HeaderBytes(txid, flags, qd, an, counts);
      Field16(h, 0) == txid && Field16(h, 2) == flags && Field16(h, 4) == qd && Field16(h, 6) == an
  {
  }

  lemma ReplyLayout(h: seq<u8>, q: seq<u8>, r: seq<u8>, more: seq<u8>)
    ensures var msg := h + q + r + more;
      && (forall i :: 0 <= i < |h| ==> msg[i] == h[i])
      && At(msg, |h|, q) && At(msg, |h| + |q|, r)
  {
    var msg := h + q + r + more;
    assert msg[|h|..|h| + |q|] == q;
    assert msg[|h| + |q|..|h| + |q| + |r|] == r;
  }

  // ------------------------------------------------------------ the loops

  method SkipNameLoop(msg: seq<u8>, start: nat) returns (q: nat)
    ensures q == SkipName(msg, start)
  {
    hide And;
    var p := start;
    while p < |msg|
      invariant SkipName(msg, p) == SkipName(msg, start)
      decreases |msg| - p
    {
      if msg[p] == 0 { return p + 1; }
      AndTopBits(msg[p]);
      if And(msg[p], 0xC0) == 0xC0 { return p + 2; }
      p := p + 1 + msg[p];
    }
    return |msg|;
  }

  method ParseReply(msg: seq<u8>, txid: u16) returns (a: Option<seq<u8>>)
    ensures a == Answer(msg, txid)
  {
    hide And, SkipName, FindAddress;
    if |msg| < HEADER { return None; }
    if Pair(msg[0], msg[1]) != txid { return None; }
    var flags := Pair(msg[2], msg[3]);
    if And(flags, FLAG_QR) == 0 { return None; }
    if And(flags, RCODE_MASK) != 0 { return None; }
    var ancount := Pair(msg[6], msg[7]);
    if ancount == 0 { return None; }

    var p: nat := HEADER;
    var i := 0;
    while i < Pair(msg[4], msg[5])
      invariant 0 <= i <= Pair(msg[4], msg[5])
      invariant SkipQuestions(msg, p, Pair(msg[4], msg[5]) - i) == SkipQuestions(msg, HEADER, Pair(msg[4], msg[5]))
    {
      p := SkipNameLoop(msg, p);
      p := p + 4;
      i := i + 1;
    }
    a := AnswerLoop(msg, p, ancount);
  }

  method AnswerLoop(msg: seq<u8>, start: nat, ancount: nat) returns (a: Option<seq<u8>>)
    ensures a == FindAddress(msg, start, ancount)
  {
    hide SkipName;
    var p: nat, i: nat := start, 0;
    while i < ancount && p < |msg|
      invariant 0 <= i <= ancount
      invariant FindAddress(msg, p, ancount - i) == FindAddress(msg, start, ancount)
    {
      p := SkipNameLoop(msg, p);
      if p + 10 > |msg| { break; }
      var rtype := Pair(msg[p], msg[p + 1]);
      var rdlength := Pair(msg[p + 8], msg[p + 9]);
      p := p + 10;
      if rtype == TYPE_A && rdlength == 4 && p + 4 <= |msg| {
        return Some(msg[p..p + 4]);
      }
      p := p + rdlength;
      i := i + 1;
    }
    return None;
  }

  /** encode_name into the query buffer from offset `at` on; the room is what is left of the buffer. */
  method EncodeName(name: seq<u8>, buf: array<u8>, at: nat) returns (length: nat)
    requires at < buf.Length && !Overruns(name, buf.Length - at)
    modifies buf
    ensures at + length <= buf.Length && buf[at..at + length] == Encode(name, 0, buf.Length - at)
    ensures forall i :: 0 <= i < buf.Length && !(at <= i < at + length) ==> buf[i] == old(buf[i])
  {
    hide Encode, Overruns, Before, AfterDot, LengthByte;
    var max := buf.Length - at;
    var pos: nat, p: seq<u8> := 0, name;
    ghost var out: seq<u8> := [];
    assert [] + Encode(name, 0, max) == Encode(name, 0, max);
    EncodeFitsIff(name, max);
    while p != [] && pos < max - 2
      invariant pos + |Encode(p, pos, max)| <= max && |out| == pos
      invariant Encode(name, 0, max) == out + Encode(p, pos, max) && buf[at..at + pos] == out
      invariant forall i :: 0 <= i < buf.Length && !(at <= i < at + pos) ==> buf[i] == old(buf[i])
      decreases |p|
    {
      var dot := Before(p, DOT);
      EncodeStep(p, pos, max);
      var labelLen := LengthByte(dot);
      if pos + 1 + labelLen >= max { break; }
      var text := p[..dot];
      ghost var rest := AfterDot(p);
      WriteLabel(buf, at, pos, text, out);
      ghost var piece: seq<u8> := [LengthByte(|text|)] + text;
      Associative(out, piece, Encode(rest, pos + 1 + dot, max));
      out := out + piece;
      pos := pos + 1 + dot;
      p := AfterDot(p);
    }
    EncodeEnd(p, pos, max);
    buf[at + pos] := 0;
    assert buf[at..at + pos] == out;
    Slices(buf, at, at + pos, at + pos + 1);
    assert buf[at + pos..at + pos + 1] == [0];
    return pos + 1;
  }

  /** One label of encode_name. */
  lemma EncodeStep(p: seq<u8>, pos: nat, max: nat)
    requires p != [] && pos < max - 2
    ensures var n, rest := Before(p, DOT), AfterDot(p);
      if pos + 1 + LengthByte(n) >= max then Encode(p, pos, max) == [0]
      else Encode(p, pos, max) == ([LengthByte(n)] + p[..n]) + Encode(rest, pos + 1 + n, max)
  {
  }

  lemma EncodeEnd(p: seq<u8>, pos: nat, max: nat)
    requires p == [] || pos >= max - 2 || pos + 1 + LengthByte(Before(p, DOT)) >= max
    ensures Encode(p, pos, max) == [0]
  {
  }

  lemma Associative(a: seq<u8>, b: seq<u8>, c: seq<u8>)
    ensures (a + b) + c == a + (b + c)
  {
  }

  lemma Slices(buf: array<u8>, i: nat, j: nat, k: nat)
    requires i <= j <= k <= buf.Length
    ensures buf[i..k] == buf[i..j] + buf[j..k]
  {
  }

  lemma LabelWritten(buf: array<u8>, start: nat, len: u8, text: seq<u8>)
    requires start + 1 + |text| <= buf.Length && buf[start] == len
    requires forall k :: 0 <= k < |text| ==> buf[start + 1 + k] == text[k]
    ensures buf[start..start + 1 + |text|] == [len] + text
  {
    var all := buf[start..start + 1 + |text|];
    assert all[0] == len;
    forall i | 1 <= i < |all| ensures all[i] == text[i - 1] {
      assert all[i] == buf[start + 1 + (i - 1)];
    }
  }

  /** A length byte and the bytes of the label, behind the `out` already written. */
  method WriteLabel(buf: array<u8>, at: nat, pos: nat, text: seq<u8>, ghost out: seq<u8>)
    requires at + pos + 1 + |text| <= buf.Length && buf[at..at + pos] == out
    modifies buf
    ensures buf[at..at + pos + 1 + |text|] == out + ([LengthByte(|text|)] + text)
    ensures forall i :: 0 <= i < buf.Length && !(at + pos <= i < at + pos + 1 + |text|) ==> buf[i] == old(buf[i])
  {
    hide LengthByte;
    var start := at + pos;
    buf[start] := LengthByte(|text|);
    var i := 0;
    while i < |text|
      invariant 0 <= i <= |text| && buf[start] == LengthByte(|text|)
      invariant forall k :: 0 <= k < i ==> buf[start + 1 + k] == text[k]
      invariant forall j :: 0 <= j < buf.Length && !(start <= j < start + 1 + i) ==> buf[j] == old(buf[j])
    {
      buf[start + 1 + i] := text[i];
      i := i + 1;
    }
    LabelWritten(buf, start, LengthByte(|text|), text);
    assert buf[at..start] == out;
    Slices(buf, at, start, start + 1 + |text|);
  }
}
