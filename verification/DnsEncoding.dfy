/** The message encoding of RFC 1035 and what the resolver's scanners make of it. */
module DnsEncoding {
  import opened Wrappers
  import opened Bytes
  import opened DnsWire

  /** `part` lies in `msg` at `off`. */
  predicate Lies(msg: seq<byte>, off: nat, part: seq<byte>)
    decreases |part|
  {
    if part == [] then off <= |msg|
    else off < |msg| && msg[off] == part[0] && Lies(msg, off + 1, part[1..])
  }

  lemma {:induction false} LiesSplit(msg: seq<byte>, off: nat, a: seq<byte>, b: seq<byte>)
    requires Lies(msg, off, a + b)
    ensures Lies(msg, off, a) && Lies(msg, off + |a|, b)
    decreases |a|
  {
    if a == [] {
      assert a + b == b;
      LiesInside(msg, off, b);
    } else {
      assert (a + b)[1..] == a[1..] + b;
      LiesSplit(msg, off + 1, a[1..], b);
    }
  }

  lemma LiesBehind(msg: seq<byte>, off: nat, a: seq<byte>, b: seq<byte>)
    requires Lies(msg, off, a + b)
    ensures Lies(msg, off + |a|, b)
  {
    LiesSplit(msg, off, a, b);
  }

  lemma LiesJoin(msg: seq<byte>, off: nat, a: seq<byte>, b: seq<byte>)
    requires Lies(msg, off, a) && Lies(msg, off + |a|, b)
    ensures Lies(msg, off, a + b)
  {
    LiesIsSlice(msg, off, a);
    LiesIsSlice(msg, off + |a|, b);
    assert msg[off..off + |a| + |b|] == msg[off..off + |a|] + msg[off + |a|..off + |a| + |b|];
    LiesIsSlice(msg, off, a + b);
  }

  lemma {:induction false} LiesInside(msg: seq<byte>, off: nat, part: seq<byte>)
    requires Lies(msg, off, part)
    ensures off + |part| <= |msg|
    decreases |part|
  {
    if part != [] {
      LiesInside(msg, off + 1, part[1..]);
    }
  }

  /** What lies at `off` is the slice there, and the other way round. */
  lemma {:induction false} LiesIsSlice(msg: seq<byte>, off: nat, part: seq<byte>)
    ensures Lies(msg, off, part) <==> off + |part| <= |msg| && msg[off..off + |part|] == part
    decreases |part|
  {
    if part != [] {
      LiesIsSlice(msg, off + 1, part[1..]);
      if off + |part| <= |msg| {
        assert msg[off..off + |part|] == [msg[off]] + msg[off + 1..off + |part|];
        assert part == [part[0]] + part[1..];
      }
    }
  }

  lemma Assoc(a: seq<byte>, b: seq<byte>, c: seq<byte>)
    ensures (a + b) + c == a + (b + c)
  {
  }

  lemma LiesHead(msg: seq<byte>, off: nat, b: byte, rest: seq<byte>)
    requires Lies(msg, off, [b] + rest)
    ensures off < |msg| && msg[off] == b && Lies(msg, off + 1, rest)
  {
    assert ([b] + rest)[1..] == rest;
  }

  // ----- names -----

  predicate ValidLabel(l: Label) {
    1 <= |l| <= 63
  }

  predicate ValidLabels(labels: seq<Label>) {
    forall i :: 0 <= i < |labels| ==> ValidLabel(labels[i])
  }

  function EncodeLabels(labels: seq<Label>): seq<byte>
    requires ValidLabels(labels)
  {
    if labels == [] then [] else [|labels[0]|] + (labels[0] + EncodeLabels(labels[1..]))
  }

  type Pointer = p: int | 0 <= p < 0x4000

  /** Labels, ended by a zero byte or by a compression pointer. */
  datatype Name = Name(labels: seq<Label>, pointer: Option<Pointer>)

  function EncodeTail(p: Option<Pointer>): seq<byte> {
    match p
    case None => [0]
    case Some(v) => [0xC0 + v / 0x100, v % 0x100]
  }

  function EncodeName(n: Name): seq<byte>
    requires ValidLabels(n.labels)
  {
    EncodeLabels(n.labels) + EncodeTail(n.pointer)
  }

  /** Splits off the first label of an encoded name. */
  lemma FirstLabel(msg: seq<byte>, off: nat, labels: seq<Label>, tail: seq<byte>)
    requires ValidLabels(labels) && labels != [] && Lies(msg, off, EncodeLabels(labels) + tail)
    ensures off + 1 + |labels[0]| <= |msg| && msg[off] == |labels[0]|
    ensures msg[off + 1..off + 1 + |labels[0]|] == labels[0]
    ensures Lies(msg, off + 1 + |labels[0]|, EncodeLabels(labels[1..]) + tail)
    ensures |EncodeLabels(labels)| == 1 + |labels[0]| + |EncodeLabels(labels[1..])|
  {
    var l, e := labels[0], EncodeLabels(labels[1..]);
    Assoc([|l|], l + e, tail);
    Assoc(l, e, tail);
    LiesHead(msg, off, |l|, l + (e + tail));
    LiesSplit(msg, off + 1, l, e + tail);
    LiesIsSlice(msg, off + 1, l);
  }

  lemma {:induction false} SkipsName(msg: seq<byte>, off: nat, labels: seq<Label>, p: Option<Pointer>)
    requires ValidLabels(labels) && Lies(msg, off, EncodeLabels(labels) + EncodeTail(p))
    ensures SkipName(msg, off) == Some(off + |EncodeLabels(labels)| + |EncodeTail(p)|)
    decreases |labels|
  {
    if labels == [] {
      assert EncodeLabels(labels) + EncodeTail(p) == [EncodeTail(p)[0]] + EncodeTail(p)[1..];
      LiesHead(msg, off, EncodeTail(p)[0], EncodeTail(p)[1..]);
    } else {
      FirstLabel(msg, off, labels, EncodeTail(p));
      SkipsName(msg, off + 1 + |labels[0]|, labels[1..], p);
    }
  }

  // ----- questions -----

  lemma ReadsLabel(msg: seq<byte>, off: nat, labels: seq<Label>, tail: seq<byte>)
    requires ValidLabels(labels) && labels != [] && Lies(msg, off, EncodeLabels(labels) + tail)
    ensures var next := off + 1 + |labels[0]|;
            && NameAt(msg, off) == Prefixed([labels[0]], NameAt(msg, next))
            && Lies(msg, next, EncodeLabels(labels[1..]) + tail)
            && next + |EncodeLabels(labels[1..])| == off + |EncodeLabels(labels)|
  {
    FirstLabel(msg, off, labels, tail);
  }

  lemma {:induction false} ReadsName(msg: seq<byte>, off: nat, labels: seq<Label>, tail: seq<byte>)
    requires ValidLabels(labels) && Lies(msg, off, EncodeLabels(labels) + ([0] + tail))
    ensures NameAt(msg, off) == Some((labels, off + |EncodeLabels(labels)| + 1))
    decreases |labels|
  {
    if labels == [] {
      assert [] + ([0] + tail) == [0] + tail;
      LiesHead(msg, off, 0, tail);
    } else {
      ReadsLabel(msg, off, labels, [0] + tail);
      ReadsName(msg, off + 1 + |labels[0]|, labels[1..], tail);
      assert [labels[0]] + labels[1..] == labels;
    }
  }

  lemma EncodeCons(l: Label, rest: seq<Label>)
    requires ValidLabel(l) && ValidLabels(rest)
    ensures ValidLabels([l] + rest) && |EncodeLabels([l] + rest)| == 1 + |l| + |EncodeLabels(rest)|
    ensures EncodeLabels([l] + rest) + [0] == ([|l|] + l) + (EncodeLabels(rest) + [0])
  {
    assert ([l] + rest)[1..] == rest;
  }

  /** Conversely, where a name is read its encoding lies, so nothing but encoded names is accepted. */
  lemma {:induction false} ReadNameIsEncoded(msg: seq<byte>, off: nat)
    requires NameAt(msg, off).Some?
    ensures var (labels, end) := NameAt(msg, off).value;
            && ValidLabels(labels) && end <= |msg| && off + |EncodeLabels(labels)| + 1 == end
            && msg[off..end] == EncodeLabels(labels) + [0]
    decreases |msg| - off
  {
    if msg[off] == 0 {
      assert msg[off..off + 1] == EncodeLabels([]) + [0];
    } else {
      var l, next := msg[off + 1..off + 1 + msg[off]], off + 1 + msg[off];
      ReadNameIsEncoded(msg, next);
      var (rest, end) := NameAt(msg, next).value;
      EncodeCons(l, rest);
      assert msg[off..end] == ([msg[off]] + l) + msg[next..end];
    }
  }

  datatype Question = Question(name: Name, qtype: uint16, qclass: uint16)

  function EncodeQuestion(q: Question): seq<byte>
    requires ValidLabels(q.name.labels)
  {
    EncodeName(q.name) + (Put16(q.qtype) + Put16(q.qclass))
  }

  /**
   A message whose first question has an uncompressed name is parsed to that
   question, its labels lower-cased and each followed by a dot, whatever follows.
   */
  lemma ParsesQuestion(uni: Label -> Label, msg: seq<byte>, q: Question)
    requires ValidLabels(q.name.labels) && q.name.pointer == None
    requires Lies(msg, 12, EncodeQuestion(q)) && U16At(msg, 4) >= 1
    ensures QuestionOf(uni, msg) == Some((ToLowerText(uni, q.name.labels), q.qtype))
  {
    var ls := EncodeLabels(q.name.labels);
    var fixed := Put16(q.qtype) + Put16(q.qclass);
    Assoc(ls, [0], fixed);
    ReadsName(msg, 12, q.name.labels, fixed);
    LiesSplit(msg, 12, ls, [0] + fixed);
    LiesSplit(msg, 12 + |ls|, [0], fixed);
    ReadsU16(msg, 13 + |ls|, q.qtype, Put16(q.qclass));
  }

  /** The message's first question is `q`, its name uncompressed. */
  predicate AsksFirst(msg: seq<byte>, q: Question) {
    ValidLabels(q.name.labels) && q.name.pointer == None && Lies(msg, 12, EncodeQuestion(q))
  }

  /** `r` is `s` with the letters A to Z in lower case and all else as it was. */
  predicate LowerCase(s: seq<byte>, r: seq<byte>) {
    |r| == |s| && forall i :: 0 <= i < |s| ==> r[i] == if 65 <= s[i] <= 90 then s[i] + 32 else s[i]
  }

  /** The labels in lower case, each with a full stop behind it. */
  predicate TextOf(labels: seq<Label>, text: seq<byte>)
    decreases |labels|
  {
    if labels == [] then text == []
    else
      var n := |labels[0]|;
      n < |text| && LowerCase(labels[0], text[..n]) && text[n] == 46 && TextOf(labels[1..], text[n + 1..])
  }

  predicate SevenBit(s: seq<byte>) {
    forall i :: 0 <= i < |s| ==> s[i] < 128
  }

  lemma {:induction false} LowerAsciiExact(l: Label)
    ensures LowerCase(l, LowerAscii(l))
    decreases |l|
  {
    if l != [] {
      LowerAsciiExact(l[1..]);
    }
  }

  lemma {:induction false} TextExact(uni: Label -> Label, labels: seq<Label>)
    requires forall i :: 0 <= i < |labels| ==> SevenBit(labels[i])
    ensures TextOf(labels, ToLowerText(uni, labels))
    decreases |labels|
  {
    if labels != [] {
      TextExact(uni, labels[1..]);
      LowerAsciiExact(labels[0]);
      assert Ascii(labels[0]);
      TextCons(labels, LowerAscii(labels[0]), ToLowerText(uni, labels[1..]));
    }
  }

  lemma TextCons(labels: seq<Label>, head: seq<byte>, rest: seq<byte>)
    requires labels != [] && LowerCase(labels[0], head) && TextOf(labels[1..], rest)
    ensures TextOf(labels, (head + [46]) + rest)
  {
    var text := (head + [46]) + rest;
    assert text[..|head|] == head && text[|head|] == 46 && text[|head| + 1..] == rest;
  }

  /** The same for a question of 7-bit labels, byte by byte. */
  lemma ParsesAsciiQuestion(uni: Label -> Label, msg: seq<byte>, q: Question)
    requires AsksFirst(msg, q) && U16At(msg, 4) >= 1
    requires forall i :: 0 <= i < |q.name.labels| ==> SevenBit(q.name.labels[i])
    ensures var r := QuestionOf(uni, msg);
            r.Some? && TextOf(q.name.labels, r.value.0) && r.value.1 == q.qtype
  {
    ParsesQuestion(uni, msg, q);
    TextExact(uni, q.name.labels);
  }

  lemma SliceLies(msg: seq<byte>, off: nat, end: nat)
    requires off <= end <= |msg|
    ensures Lies(msg, off, msg[off..end])
  {
    LiesIsSlice(msg, off, msg[off..end]);
  }

  lemma FixedLies(msg: seq<byte>, off: nat)
    requires off + 4 <= |msg|
    ensures Lies(msg, off, Put16(U16At(msg, off)) + Put16(U16At(msg, off + 2)))
  {
    SliceLies(msg, off, off + 2);
    SliceLies(msg, off + 2, off + 4);
    assert msg[off..off + 2] == Put16(U16At(msg, off));
    assert msg[off + 2..off + 4] == Put16(U16At(msg, off + 2));
    LiesJoin(msg, off, msg[off..off + 2], msg[off + 2..off + 4]);
  }

  lemma QuestionLies(msg: seq<byte>, end: nat, q: Question)
    requires ValidLabels(q.name.labels) && q.name.pointer == None && 12 <= end && end + 4 <= |msg|
    requires msg[12..end] == EncodeLabels(q.name.labels) + [0]
    requires q.qtype == U16At(msg, end) && q.qclass == U16At(msg, end + 2)
    ensures Lies(msg, 12, EncodeQuestion(q))
  {
    SliceLies(msg, 12, end);
    FixedLies(msg, end);
    LiesJoin(msg, 12, msg[12..end], Put16(q.qtype) + Put16(q.qclass));
  }

  /** The parser accepts exactly the messages that hold an encoded question. */
  lemma AcceptsExactlyQuestions(uni: Label -> Label, msg: seq<byte>)
    ensures QuestionOf(uni, msg).Some? <==> |msg| >= 12 && U16At(msg, 4) >= 1 && exists q :: AsksFirst(msg, q)
  {
    if QuestionOf(uni, msg).Some? {
      var (labels, end) := NameAt(msg, 12).value;
      ReadNameIsEncoded(msg, 12);
      var q := Question(Name(labels, None), U16At(msg, end), U16At(msg, end + 2));
      QuestionLies(msg, end, q);
      assert AsksFirst(msg, q);
    } else if |msg| >= 12 && U16At(msg, 4) >= 1 {
      forall q | AsksFirst(msg, q) ensures false {
        ParsesQuestion(uni, msg, q);
      }
    }
  }

  lemma ReadsU16(msg: seq<byte>, off: nat, v: uint16, rest: seq<byte>)
    requires Lies(msg, off, Put16(v) + rest)
    ensures off + 2 <= |msg| && U16At(msg, off) == v && Lies(msg, off + 2, rest)
  {
    assert Put16(v) + rest == [Put16(v)[0]] + ([Put16(v)[1]] + rest);
    LiesHead(msg, off, Put16(v)[0], [Put16(v)[1]] + rest);
    LiesHead(msg, off + 1, Put16(v)[1], rest);
  }

  lemma ReadsU32(msg: seq<byte>, off: nat, v: uint32, rest: seq<byte>)
    requires Lies(msg, off, Put32(v) + rest)
    ensures off + 4 <= |msg| && U32At(msg, off) == v && Lies(msg, off + 4, rest)
  {
    LiesSplit(msg, off, Put32(v), rest);
    LiesIsSlice(msg, off, Put32(v));
    var s := msg[off..off + 4];
    assert msg[off] == s[0] && msg[off + 1] == s[1] && msg[off + 2] == s[2] && msg[off + 3] == s[3];
    U32AtOfPut32(v);
  }

  // ----- answers -----

  datatype Answer = Answer(name: Name, atype: uint16, aclass: uint16, ttl: uint32, rdata: seq<byte>)

  predicate ValidAnswer(a: Answer) {
    ValidLabels(a.name.labels) && |a.rdata| < 0x1_0000
  }

  function FixedPart(a: Answer): seq<byte>
    requires ValidAnswer(a)
  {
    Put16(a.atype) + (Put16(a.aclass) + (Put32(a.ttl) + (Put16(|a.rdata|) + [])))
  }

  function EncodeAnswer(a: Answer): seq<byte>
    requires ValidAnswer(a)
  {
    EncodeName(a.name) + (FixedPart(a) + a.rdata)
  }

  function EncodeQuestions(qs: seq<Question>): seq<byte>
    requires forall i :: 0 <= i < |qs| ==> ValidLabels(qs[i].name.labels)
  {
    if qs == [] then [] else EncodeQuestion(qs[0]) + EncodeQuestions(qs[1..])
  }

  function EncodeAnswers(ans: seq<Answer>): seq<byte>
    requires forall i :: 0 <= i < |ans| ==> ValidAnswer(ans[i])
  {
    if ans == [] then [] else EncodeAnswer(ans[0]) + EncodeAnswers(ans[1..])
  }

  function Ttls(ans: seq<Answer>): seq<uint32> {
    if ans == [] then [] else [ans[0].ttl] + Ttls(ans[1..])
  }

  lemma {:induction false} SkipsQuestions(msg: seq<byte>, off: nat, qs: seq<Question>, tail: seq<byte>)
    requires forall i :: 0 <= i < |qs| ==> ValidLabels(qs[i].name.labels)
    requires Lies(msg, off, EncodeQuestions(qs) + tail)
    ensures SkipQuestions(msg, off, |qs|) == Some(off + |EncodeQuestions(qs)|)
    decreases |qs|
  {
    if qs != [] {
      QuestionsStep(msg, off, qs, tail);
      SkipsQuestions(msg, off + |EncodeQuestion(qs[0])|, qs[1..], tail);
    }
  }

  lemma QuestionsStep(msg: seq<byte>, off: nat, qs: seq<Question>, tail: seq<byte>)
    requires qs != [] && forall i :: 0 <= i < |qs| ==> ValidLabels(qs[i].name.labels)
    requires Lies(msg, off, EncodeQuestions(qs) + tail)
    ensures var next := off + |EncodeQuestion(qs[0])|;
            && next <= |msg| && next >= 4 && SkipName(msg, off) == Some(next - 4)
            && Lies(msg, next, EncodeQuestions(qs[1..]) + tail)
  {
    var q, rest := qs[0], EncodeQuestions(qs[1..]) + tail;
    Assoc(EncodeQuestion(q), EncodeQuestions(qs[1..]), tail);
    LiesSplit(msg, off, EncodeQuestion(q), rest);
    LiesInside(msg, off, EncodeQuestion(q));
    LiesSplit(msg, off, EncodeName(q.name), Put16(q.qtype) + Put16(q.qclass));
    SkipsName(msg, off, q.name.labels, q.name.pointer);
  }

  /** The fixed part of an answer reads back as its TTL and the length of its data. */
  lemma ReadsFixedPart(msg: seq<byte>, off: nat, a: Answer)
    requires ValidAnswer(a) && Lies(msg, off, FixedPart(a))
    ensures off + 10 <= |msg| && U32At(msg, off + 4) == a.ttl && U16At(msg, off + 8) == |a.rdata|
  {
    ReadsU16(msg, off, a.atype, Put16(a.aclass) + (Put32(a.ttl) + (Put16(|a.rdata|) + [])));
    ReadsU16(msg, off + 2, a.aclass, Put32(a.ttl) + (Put16(|a.rdata|) + []));
    ReadsU32(msg, off + 4, a.ttl, Put16(|a.rdata|) + []);
    ReadsU16(msg, off + 8, |a.rdata|, []);
  }

  lemma ReadsAnswer(msg: seq<byte>, off: nat, a: Answer)
    requires ValidAnswer(a) && Lies(msg, off, EncodeAnswer(a))
    ensures AnswerAt(msg, off) == Some((a.ttl, off + |EncodeAnswer(a)|))
  {
    var name := EncodeName(a.name);
    LiesSplit(msg, off, name, FixedPart(a) + a.rdata);
    LiesSplit(msg, off + |name|, FixedPart(a), a.rdata);
    SkipsName(msg, off, a.name.labels, a.name.pointer);
    ReadsFixedPart(msg, off + |name|, a);
  }

  /** The first answer's TTL is scanned, and the scan goes on right behind its data. */
  lemma ScansOneAnswer(msg: seq<byte>, off: nat, a: Answer, n: nat)
    requires ValidAnswer(a) && Lies(msg, off, EncodeAnswer(a)) && n > 0
    ensures ScannedTtls(msg, off, n) == [a.ttl] + ScannedTtls(msg, off + |EncodeAnswer(a)|, n - 1)
  {
    ReadsAnswer(msg, off, a);
  }

  lemma {:induction false} ScansAnswers(msg: seq<byte>, off: nat, ans: seq<Answer>, tail: seq<byte>)
    requires forall i :: 0 <= i < |ans| ==> ValidAnswer(ans[i])
    requires Lies(msg, off, EncodeAnswers(ans) + tail)
    ensures ScannedTtls(msg, off, |ans|) == Ttls(ans)
    decreases |ans|
  {
    if ans != [] {
      AnswersStep(msg, off, ans, tail);
      ScansAnswers(msg, off + |EncodeAnswer(ans[0])|, ans[1..], tail);
    }
  }

  lemma AnswersStep(msg: seq<byte>, off: nat, ans: seq<Answer>, tail: seq<byte>)
    requires ans != [] && forall i :: 0 <= i < |ans| ==> ValidAnswer(ans[i])
    requires Lies(msg, off, EncodeAnswers(ans) + tail)
    ensures var next := off + |EncodeAnswer(ans[0])|;
            && ScannedTtls(msg, off, |ans|) == [ans[0].ttl] + ScannedTtls(msg, next, |ans[1..]|)
            && Lies(msg, next, EncodeAnswers(ans[1..]) + tail)
  {
    FirstAnswer(msg, off, ans, tail);
    ScansOneAnswer(msg, off, ans[0], |ans|);
  }

  /** Splits off the first of the encoded answers. */
  lemma FirstAnswer(msg: seq<byte>, off: nat, ans: seq<Answer>, tail: seq<byte>)
    requires ans != [] && forall i :: 0 <= i < |ans| ==> ValidAnswer(ans[i])
    requires Lies(msg, off, EncodeAnswers(ans) + tail)
    ensures Lies(msg, off, EncodeAnswer(ans[0]))
    ensures Lies(msg, off + |EncodeAnswer(ans[0])|, EncodeAnswers(ans[1..]) + tail)
  {
    Assoc(EncodeAnswer(ans[0]), EncodeAnswers(ans[1..]), tail);
    LiesSplit(msg, off, EncodeAnswer(ans[0]), EncodeAnswers(ans[1..]) + tail);
  }

  lemma {:induction false} TtlsAt(ans: seq<Answer>)
    ensures |Ttls(ans)| == |ans| && forall i :: 0 <= i < |ans| ==> Ttls(ans)[i] == ans[i].ttl
    decreases |ans|
  {
    if ans != [] {
      TtlsAt(ans[1..]);
    }
  }

  // ----- whole messages -----

  /** `rest` is everything after the answer section. */
  datatype Message = Message(
    id: uint16, flags: uint16, questions: seq<Question>, answers: seq<Answer>, authorities: uint16, additionals: uint16,
    rest: seq<byte>)

  predicate ValidMessage(m: Message) {
    && |m.questions| < 0x1_0000 && |m.answers| < 0x1_0000
    && (forall i :: 0 <= i < |m.questions| ==> ValidLabels(m.questions[i].name.labels))
    && (forall i :: 0 <= i < |m.answers| ==> ValidAnswer(m.answers[i]))
  }

  function Header(m: Message): seq<byte>
    requires ValidMessage(m)
  {
    Put16(m.id) + Put16(m.flags) + Put16(|m.questions|) + Put16(|m.answers|) + Put16(m.authorities)
      + Put16(m.additionals)
  }

  function Encode(m: Message): seq<byte>
    requires ValidMessage(m)
  {
    Header(m) + (EncodeQuestions(m.questions) + (EncodeAnswers(m.answers) + m.rest))
  }

  lemma ReadsHeader(m: Message, body: seq<byte>)
    requires ValidMessage(m)
    ensures var msg := Header(m) + body;
            |Header(m)| == 12 && U16At(msg, 0) == m.id && U16At(msg, 4) == |m.questions| && U16At(msg, 6) == |m.answers|
  {
  }

  lemma ScansMessage(m: Message)
    requires ValidMessage(m)
    ensures AllTtls(Encode(m)) == Ttls(m.answers)
  {
    var body := EncodeQuestions(m.questions) + (EncodeAnswers(m.answers) + m.rest);
    ReadsHeader(m, body);
    BodyLies(Header(m), body);
    ScansBody(Encode(m), m.questions, m.answers, m.rest);
  }

  lemma BodyLies(header: seq<byte>, body: seq<byte>)
    ensures Lies(header + body, |header|, body)
  {
    LiesIsSlice(header + body, |header|, body);
  }

  lemma ScansBody(msg: seq<byte>, qs: seq<Question>, ans: seq<Answer>, rest: seq<byte>)
    requires forall i :: 0 <= i < |qs| ==> ValidLabels(qs[i].name.labels)
    requires forall i :: 0 <= i < |ans| ==> ValidAnswer(ans[i])
    requires Lies(msg, 12, EncodeQuestions(qs) + (EncodeAnswers(ans) + rest))
    ensures var off := 12 + |EncodeQuestions(qs)|;
            SkipQuestions(msg, 12, |qs|) == Some(off) && ScannedTtls(msg, off, |ans|) == Ttls(ans)
  {
    var tail := EncodeAnswers(ans) + rest;
    SkipsQuestions(msg, 12, qs, tail);
    LiesBehind(msg, 12, EncodeQuestions(qs), tail);
    ScansAnswers(msg, 12 + |EncodeQuestions(qs)|, ans, rest);
  }

  /** On an encoded message `minTTL` gives the least TTL of its answers, all of them and nothing else; 0 if none. */
  lemma LeastTtlExact(m: Message)
    requires ValidMessage(m)
    ensures var least := Least(AllTtls(Encode(m)));
            && (m.answers == [] ==> least == 0)
            && (m.answers != [] ==> exists i :: 0 <= i < |m.answers| && least == m.answers[i].ttl)
            && (forall i :: 0 <= i < |m.answers| ==> least <= m.answers[i].ttl)
  {
    ScansMessage(m);
    TtlsAt(m.answers);
    LeastIsLeast(Ttls(m.answers));
  }

  // ----- the query printer -----

  /** The labels the printer emits for a name when `cur` is what it has read since the last dot. */
  function SplitAtDots(name: seq<byte>, cur: Label): seq<Label>
    decreases |name|
  {
    if name == [] then (if cur == [] then [] else [cur])
    else if name[0] == DOT then [cur] + SplitAtDots(name[1..], [])
    else SplitAtDots(name[1..], cur + [name[0]])
  }

  /** Length bytes and labels as emitted; the length is cut to a byte. */
  function Emitted(labels: seq<Label>): seq<byte> {
    if labels == [] then [] else Emitted(labels[..|labels| - 1]) + Emit(labels[|labels| - 1])
  }

  function Emit(l: Label): seq<byte> {
    [|l| % 0x100] + l
  }

  const QUERY_HEADER: seq<byte> := [0x12, 0x34, 0x01, 0x00, 0, 1, 0, 0, 0, 0, 0, 0]

  const QUERY_TAIL: seq<byte> := [0, 0, 1, 0, 1]

  method BuildQuery(name: seq<byte>) returns (b: seq<byte>)
    ensures b == QUERY_HEADER + Emitted(SplitAtDots(name, [])) + QUERY_TAIL
  {
    b := [0x12, 0x34, 0x01, 0x00, 0, 1, 0, 0, 0, 0, 0, 0];
    var cur: Label := [];
    ghost var all, done: seq<Label> := SplitAtDots(name, []), [];
    assert name[0..] == name;
    for i := 0 to |name|
      invariant b == QUERY_HEADER + Emitted(done)
      invariant all == done + SplitAtDots(name[i..], cur)
    {
      SplitStep(name, i, cur, done);
      if name[i] == 46 {
        PrintStep(done, cur);
        b := b + ([|cur| % 0x100] + cur);
        done, cur := done + [cur], [];
      } else {
        cur := cur + [name[i]];
      }
    }
    assert name[|name|..] == [] && done + [] == done;
    if cur != [] {
      PrintStep(done, cur);
      b := b + ([|cur| % 0x100] + cur);
    }
    b := b + [0, 0, 1, 0, 1];
  }

  lemma SplitStep(name: seq<byte>, i: nat, cur: Label, done: seq<Label>)
    requires i < |name|
    ensures name[i] == 46 ==>
              done + SplitAtDots(name[i..], cur) == (done + [cur]) + SplitAtDots(name[i + 1..], [])
    ensures name[i] != 46 ==> SplitAtDots(name[i..], cur) == SplitAtDots(name[i + 1..], cur + [name[i]])
  {
    var rest := name[i..];
    assert rest[0] == name[i] && rest[1..] == name[i + 1..];
    var left := SplitAtDots(name[i + 1..], []);
    assert done + ([cur] + left) == (done + [cur]) + left;
  }

  lemma PrintStep(done: seq<Label>, cur: Label)
    ensures QUERY_HEADER + Emitted(done) + ([|cur| % 0x100] + cur) == QUERY_HEADER + Emitted(done + [cur])
  {
    EmittedAppend(done, cur);
    Assoc(QUERY_HEADER, Emitted(done), Emit(cur));
  }

  lemma EmittedAppend(done: seq<Label>, l: Label)
    ensures Emitted(done + [l]) == Emitted(done) + Emit(l)
  {
    assert (done + [l])[..|done|] == done;
  }

  predicate DotFree(l: Label) {
    DOT !in l
  }

  /** The labels with a dot after each. */
  function Dotted(labels: seq<Label>): seq<byte> {
    if labels == [] then [] else (labels[0] + [DOT]) + Dotted(labels[1..])
  }

  lemma {:induction false} SplitLabel(l: Label, cur: Label, rest: seq<byte>)
    requires DotFree(l)
    ensures SplitAtDots(l + ([DOT] + rest), cur) == [cur + l] + SplitAtDots(rest, [])
    decreases |l|
  {
    var name := l + ([DOT] + rest);
    if l == [] {
      assert name == [DOT] + rest && name[1..] == rest && cur + l == cur;
    } else {
      assert name[1..] == l[1..] + ([DOT] + rest);
      assert (cur + [l[0]]) + l[1..] == cur + l;
      SplitLabel(l[1..], cur + [l[0]], rest);
    }
  }

  /** Splitting undoes dotting, so distinct label sequences without dots have distinct texts. */
  lemma {:induction false} SplitOfDotted(labels: seq<Label>)
    requires forall i :: 0 <= i < |labels| ==> DotFree(labels[i])
    ensures SplitAtDots(Dotted(labels), []) == labels
    decreases |labels|
  {
    if labels != [] {
      Assoc(labels[0], [DOT], Dotted(labels[1..]));
      SplitLabel(labels[0], [], Dotted(labels[1..]));
      SplitOfDotted(labels[1..]);
      assert [] + labels[0] == labels[0] && [labels[0]] + labels[1..] == labels;
    }
  }

  lemma MoveFirst(labels: seq<Label>, more: seq<Label>)
    requires more != []
    ensures labels + more == (labels + [more[0]]) + more[1..]
  {
  }

  lemma {:induction false} EmittedIsEncoded(labels: seq<Label>, more: seq<Label>)
    requires ValidLabels(labels) && ValidLabels(more)
    ensures Emitted(labels + more) == Emitted(labels) + EncodeLabels(more)
    decreases |more|
  {
    if more == [] {
      assert labels + more == labels;
    } else {
      var l := more[0];
      MoveFirst(labels, more);
      EmittedIsEncoded(labels + [l], more[1..]);
      EmittedShift(labels, more);
    }
  }

  lemma EmittedShift(labels: seq<Label>, more: seq<Label>)
    requires ValidLabels(more) && more != []
    ensures Emitted(labels + [more[0]]) + EncodeLabels(more[1..]) == Emitted(labels) + EncodeLabels(more)
  {
    var l, rest := more[0], EncodeLabels(more[1..]);
    EmittedAppend(labels, l);
    assert EncodeLabels(more) == [|l|] + (l + rest);
    Regroup(Emitted(labels), [|l|], l, rest);
  }

  lemma Regroup(a: seq<byte>, b: seq<byte>, c: seq<byte>, d: seq<byte>)
    ensures (a + (b + c)) + d == a + (b + (c + d))
  {
    Assoc(a, b + c, d);
    Assoc(b, c, d);
  }

  /** The name with a final dot, unless it has one or is empty. */
  function WithFinalDot(name: seq<byte>): seq<byte> {
    if name == [] || name[|name| - 1] == DOT then name else name + [DOT]
  }

  lemma DottedCons(l: Label, rest: seq<Label>)
    ensures Dotted([l] + rest) == (l + [DOT]) + Dotted(rest)
  {
    assert ([l] + rest)[1..] == rest;
  }

  lemma FinalDotAfter(a: seq<byte>, b: seq<byte>)
    requires a != [] && a[|a| - 1] == DOT
    ensures WithFinalDot(a + b) == a + WithFinalDot(b)
  {
    if b == [] {
      assert a + b == a;
    } else {
      Assoc(a, b, [DOT]);
    }
  }

  lemma {:induction false} DottedOfSplit(name: seq<byte>, cur: Label)
    requires DotFree(cur)
    ensures Dotted(SplitAtDots(name, cur)) == WithFinalDot(cur + name)
    decreases |name|
  {
    if name == [] {
      assert cur + name == cur;
      DottedCons(cur, []);
      assert [cur] + [] == [cur] && (cur + [DOT]) + [] == cur + [DOT];
    } else if name[0] == DOT {
      DottedOfSplit(name[1..], []);
      DottedCons(cur, SplitAtDots(name[1..], []));
      assert [] + name[1..] == name[1..];
      assert name == [DOT] + name[1..];
      Assoc(cur, [DOT], name[1..]);
      FinalDotAfter(cur + [DOT], name[1..]);
    } else {
      DottedOfSplit(name[1..], cur + [name[0]]);
      assert name == [name[0]] + name[1..];
      Assoc(cur, [name[0]], name[1..]);
    }
  }

  /**
   Parsing inverts printing: the query built for a 7-bit name whose labels are
   valid parses to that name in lower case, with a final full stop, and asks for an
   address.
   */
  lemma ParseInvertsBuild(uni: Label -> Label, name: seq<byte>)
    requires SevenBit(name) && ValidLabels(SplitAtDots(name, []))
    ensures var r := QuestionOf(uni, QUERY_HEADER + Emitted(SplitAtDots(name, [])) + QUERY_TAIL);
            && r.Some? && r.value.1 == 1
            && LowerCase(if name == [] || name[|name| - 1] == 46 then name else name + [46], r.value.0)
  {
    assert Ascii(name);
    EmittedLabels(SplitAtDots(name, []));
    ParsesBuilt(uni, SplitAtDots(name, []));
    LowerOfSplit(uni, name);
    LowerAsciiExact(WithFinalDot(name));
  }

  lemma EmittedLabels(labels: seq<Label>)
    requires ValidLabels(labels)
    ensures Emitted(labels) == EncodeLabels(labels)
  {
    EmittedIsEncoded([], labels);
    assert [] + labels == labels && Emitted([]) + EncodeLabels(labels) == EncodeLabels(labels);
  }

  lemma LowerOfSplit(uni: Label -> Label, name: seq<byte>)
    requires Ascii(name)
    ensures ToLowerText(uni, SplitAtDots(name, [])) == LowerAscii(WithFinalDot(name))
  {
    DottedOfSplit(name, []);
    assert [] + name == name;
    LowerOfDotted(uni, SplitAtDots(name, []));
  }

  lemma ParsesBuilt(uni: Label -> Label, labels: seq<Label>)
    requires ValidLabels(labels)
    ensures QuestionOf(uni, QUERY_HEADER + EncodeLabels(labels) + QUERY_TAIL) == Some((ToLowerText(uni, labels), 1))
  {
    var q := Question(Name(labels, None), 1, 1);
    var ls := EncodeLabels(labels);
    Assoc(ls, [0], [0, 1, 0, 1]);
    assert EncodeQuestion(q) == ls + QUERY_TAIL;
    Assoc(QUERY_HEADER, ls, QUERY_TAIL);
    LiesIsSlice(QUERY_HEADER + ls + QUERY_TAIL, 12, EncodeQuestion(q));
    ParsesQuestion(uni, QUERY_HEADER + ls + QUERY_TAIL, q);
  }

  lemma {:induction false} LowerAsciiConcat(a: seq<byte>, b: seq<byte>)
    ensures LowerAscii(a + b) == LowerAscii(a) + LowerAscii(b)
    decreases |a|
  {
    if a == [] {
      assert a + b == b;
    } else {
      assert (a + b)[1..] == a[1..] + b;
      LowerAsciiConcat(a[1..], b);
    }
  }

  lemma {:induction false} LowerOfDotted(uni: Label -> Label, labels: seq<Label>)
    requires Ascii(Dotted(labels))
    ensures ToLowerText(uni, labels) == LowerAscii(Dotted(labels))
    decreases |labels|
  {
    if labels != [] {
      var head, rest := labels[0] + [DOT], Dotted(labels[1..]);
      assert forall i :: 0 <= i < |labels[0]| ==> labels[0][i] == (head + rest)[i];
      assert forall i :: 0 <= i < |rest| ==> rest[i] == (head + rest)[|head| + i];
      LowerOfDotted(uni, labels[1..]);
      LowerAsciiConcat(labels[0], [DOT]);
      assert LowerAscii([DOT]) == [DOT];
      LowerAsciiConcat(head, rest);
    }
  }

  function LowerAll(labels: seq<Label>): seq<Label> {
    seq(|labels|, i requires 0 <= i < |labels| => LowerAscii(labels[i]))
  }

  /** Equal bytes, or the two cases of one of the letters A to Z. */
  predicate SameLetter(x: byte, y: byte) {
    x == y || (65 <= x <= 90 && y == x + 32) || (65 <= y <= 90 && x == y + 32)
  }

  predicate SameUpToCase(a: Label, b: Label) {
    |a| == |b| && forall i :: 0 <= i < |a| ==> SameLetter(a[i], b[i])
  }

  predicate NamesSameUpToCase(a: seq<Label>, b: seq<Label>) {
    |a| == |b| && forall i :: 0 <= i < |a| ==> SameUpToCase(a[i], b[i])
  }

  /** Two names of 7-bit labels without full stops have the same text exactly when they differ at most in case. */
  lemma NamesInjective(uni: Label -> Label, a: seq<Label>, b: seq<Label>)
    requires forall i :: 0 <= i < |a| ==> SevenBit(a[i]) && 46 !in a[i]
    requires forall i :: 0 <= i < |b| ==> SevenBit(b[i]) && 46 !in b[i]
    ensures ToLowerText(uni, a) == ToLowerText(uni, b) <==> NamesSameUpToCase(a, b)
  {
    assert forall i :: 0 <= i < |a| ==> Ascii(a[i]) && DotFree(a[i]);
    assert forall i :: 0 <= i < |b| ==> Ascii(b[i]) && DotFree(b[i]);
    TextIsDottedLower(uni, a);
    TextIsDottedLower(uni, b);
    SplitOfLower(a);
    SplitOfLower(b);
    LowerAllSame(a, b);
  }

  lemma LowerSame(a: Label, b: Label)
    ensures LowerAscii(a) == LowerAscii(b) <==> SameUpToCase(a, b)
  {
    LowerAsciiExact(a);
    LowerAsciiExact(b);
    if SameUpToCase(a, b) {
      assert LowerAscii(a) == LowerAscii(b);
    }
    if LowerAscii(a) == LowerAscii(b) {
      forall i | 0 <= i < |a| ensures SameLetter(a[i], b[i]) {
        assert LowerAscii(a)[i] == LowerAscii(b)[i];
      }
    }
  }

  lemma LowerAllSame(a: seq<Label>, b: seq<Label>)
    ensures LowerAll(a) == LowerAll(b) <==> NamesSameUpToCase(a, b)
  {
    if |a| == |b| {
      forall i | 0 <= i < |a| ensures LowerAll(a)[i] == LowerAll(b)[i] <==> SameUpToCase(a[i], b[i]) {
        LowerSame(a[i], b[i]);
      }
    } else {
      assert |LowerAll(a)| != |LowerAll(b)|;
    }
  }

  lemma {:induction false} LowerDotFree(l: Label)
    requires DotFree(l)
    ensures DotFree(LowerAscii(l))
    decreases |l|
  {
    if l != [] {
      LowerDotFree(l[1..]);
    }
  }

  lemma SplitOfLower(labels: seq<Label>)
    requires forall i :: 0 <= i < |labels| ==> DotFree(labels[i])
    ensures SplitAtDots(Dotted(LowerAll(labels)), []) == LowerAll(labels)
  {
    forall i | 0 <= i < |labels| ensures DotFree(LowerAll(labels)[i]) {
      LowerDotFree(labels[i]);
    }
    SplitOfDotted(LowerAll(labels));
  }

  lemma {:induction false} TextIsDottedLower(uni: Label -> Label, a: seq<Label>)
    requires forall i :: 0 <= i < |a| ==> Ascii(a[i])
    ensures ToLowerText(uni, a) == Dotted(LowerAll(a))
    decreases |a|
  {
    if a != [] {
      TextIsDottedLower(uni, a[1..]);
      assert LowerAll(a)[1..] == LowerAll(a[1..]);
    }
  }

  // ----- the empty answer -----

  /** A name is read from its own bytes only, and `emptyAnswer` finds the same end. */
  lemma {:induction false} NameIsLocal(msg: seq<byte>, msg': seq<byte>, off: nat, end: nat)
    requires NameAt(msg, off).Some? && NameAt(msg, off).value.1 == end
    requires end <= |msg'| && forall i :: off <= i < end && i < |msg| ==> msg'[i] == msg[i]
    ensures NameAt(msg', off) == NameAt(msg, off)
    ensures off < end <= |msg| && NameEnd(msg, off) == end
    decreases |msg| - off
  {
    if msg[off] != 0 {
      var next := off + 1 + msg[off];
      assert NameAt(msg, off) == Prefixed([msg[off + 1..next]], NameAt(msg, next));
      NameIsLocal(msg, msg', next, end);
      assert msg'[off] == msg[off];
      assert msg'[off + 1..next] == msg[off + 1..next];
    }
  }

  /**
   For every query that parses, the empty answer ends right behind the first
   question, keeps the identifier and all flags but the two it sets, has the counts
   1, 0, 0, 0, and parses to the same question, whatever followed in the query.
   */
  lemma EmptyAnswerMatches(uni: Label -> Label, query: seq<byte>)
    requires QuestionOf(uni, query).Some?
    ensures |query| >= 12
    ensures var out := EmptyAnswerOf(query);
            var end := NameAt(query, 12).value.1 + 4;
            && |out| == end <= |query| && out[12..] == query[12..end]
            && out[..2] == query[..2]
            && out[2] >= 0x80 && out[2] % 0x80 == query[2] % 0x80 && out[3] >= 0x80 && out[3] % 0x80 == query[3] % 0x80
            && U16At(out, 4) == 1 && U16At(out, 6) == 0 && U16At(out, 8) == 0 && U16At(out, 10) == 0
            && QuestionOf(uni, out) == QuestionOf(uni, query)
  {
    var e := NameAt(query, 12).value.1;
    NameIsLocal(query, query, 12, e);
    EmptyAnswerShape(query);
    var out := EmptyAnswerOf(query);
    forall i | 12 <= i < e + 4 ensures out[i] == query[i] {
      assert out[12..][i - 12] == query[12..e + 4][i - 12];
    }
    NameIsLocal(query, out, 12, e);
  }

  lemma EmptyAnswerShape(query: seq<byte>)
    requires |query| >= 12 && NameEnd(query, 12) + 4 <= |query|
    ensures var out := EmptyAnswerOf(query);
            var end := NameEnd(query, 12) + 4;
            && |out| == end && out[12..] == query[12..end] && out[..2] == query[..2]
            && out[2] == SetTopBit(query[2]) && out[3] == SetTopBit(query[3])
            && U16At(out, 4) == 1 && U16At(out, 6) == 0 && U16At(out, 8) == 0 && U16At(out, 10) == 0
  {
  }

  // ----- cache keys -----

  function Digits(n: nat): seq<byte> {
    if n < 10 then [48 + n] else Digits(n / 10) + [48 + n % 10]
  }

  function CacheKey(name: seq<byte>, qtype: uint16): seq<byte> {
    name + [BAR] + Digits(qtype)
  }

  lemma {:induction false} DigitsAreDigits(n: nat)
    ensures Digits(n) != [] && forall i :: 0 <= i < |Digits(n)| ==> 48 <= Digits(n)[i] <= 57
  {
    if n >= 10 {
      DigitsAreDigits(n / 10);
    }
  }

  lemma {:induction false} DigitsInjective(m: nat, n: nat)
    requires Digits(m) == Digits(n)
    ensures m == n
  {
    DigitsAreDigits(m / 10);
    DigitsAreDigits(n / 10);
    if m >= 10 && n >= 10 {
      assert Digits(m)[..|Digits(m)| - 1] == Digits(m / 10) && Digits(n)[..|Digits(n)| - 1] == Digits(n / 10);
      DigitsInjective(m / 10, n / 10);
      assert Digits(m)[|Digits(m)| - 1] == Digits(n)[|Digits(n)| - 1];
    } else {
      assert |Digits(m)| == |Digits(n)|;
    }
  }

  lemma LastBar(name: seq<byte>, qtype: uint16)
    ensures var k := CacheKey(name, qtype);
            && |name| < |k| && k[|name|] == BAR && k[..|name|] == name && k[|name| + 1..] == Digits(qtype)
            && forall i :: |name| < i < |k| ==> k[i] != BAR
  {
    DigitsAreDigits(qtype);
    var k := CacheKey(name, qtype);
    forall i | |name| < i < |k| ensures k[i] != BAR {
      assert k[i] == Digits(qtype)[i - |name| - 1];
    }
  }

  /** The key determines name and type, even when the name contains the separator. */
  lemma CacheKeyInjective(a: seq<byte>, p: uint16, b: seq<byte>, q: uint16)
    requires CacheKey(a, p) == CacheKey(b, q)
    ensures a == b && p == q
  {
    LastBar(a, p);
    LastBar(b, q);
    assert |a| == |b|;
    DigitsInjective(p, q);
  }
}
