/**
 The resolver's byte scanners (master/dns/resolver.go:245-372) and the query
 printer of the data-path test tool (tools/datapathtest/main.go:198-218), against
 the encoding of sections 4.1.1 to 4.1.4 of RFC 1035.
 */
module DnsWire {
  import opened Wrappers
  import opened Bytes

  type Label = seq<byte>

  const DOT: byte := 46
  const BAR: byte := 124

  // ----- lower case -----

  predicate Ascii(l: Label) {
    forall i :: 0 <= i < |l| ==> l[i] < 0x80
  }

  function LowerByte(b: byte): byte {
    if 65 <= b <= 90 then b + 32 else b
  }

  function LowerAscii(l: Label): Label {
    if l == [] then [] else [LowerByte(l[0])] + LowerAscii(l[1..])
  }

  /** `bytes.ToLower`: the Unicode mapping `uni` matters only outside ASCII. */
  function ToLower(uni: Label -> Label, l: Label): Label {
    if Ascii(l) then LowerAscii(l) else uni(l)
  }

  // ----- what the scanners compute -----

  /** Labels and end of the uncompressed name at `off`. */
  function NameAt(msg: seq<byte>, off: nat): Option<(seq<Label>, nat)>
    decreases |msg| - off
  {
    if off >= |msg| then None
    else if msg[off] == 0 then Some(([], off + 1))
    else if msg[off] >= 0x40 || off + 1 + msg[off] > |msg| then None
    else Prefixed([msg[off + 1..off + 1 + msg[off]]], NameAt(msg, off + 1 + msg[off]))
  }

  /** A scan result with more labels in front. */
  function Prefixed(labels: seq<Label>, r: Option<(seq<Label>, nat)>): Option<(seq<Label>, nat)> {
    match r
    case None => None
    case Some((ls, end)) => Some((labels + ls, end))
  }

  lemma PrefixedTwice(a: seq<Label>, b: seq<Label>, r: Option<(seq<Label>, nat)>)
    ensures Prefixed(a, Prefixed(b, r)) == Prefixed(a + b, r)
  {
    if r.Some? {
      assert a + (b + r.value.0) == (a + b) + r.value.0;
    }
  }

  lemma PrefixedNone(r: Option<(seq<Label>, nat)>)
    ensures Prefixed([], r) == r
  {
    if r.Some? {
      assert [] + r.value.0 == r.value.0;
    }
  }

  /** The labels in lower case, a dot after each. */
  function ToLowerText(uni: Label -> Label, labels: seq<Label>): seq<byte> {
    if labels == [] then [] else (ToLower(uni, labels[0]) + [DOT]) + ToLowerText(uni, labels[1..])
  }

  lemma {:induction false} ToLowerTextAppend(uni: Label -> Label, labels: seq<Label>, l: Label)
    ensures ToLowerText(uni, labels + [l]) == ToLowerText(uni, labels) + (ToLower(uni, l) + [DOT])
  {
    if labels == [] {
      assert [] + [l] == [l] && ToLowerText(uni, [l][1..]) == [];
    } else {
      assert (labels + [l])[1..] == labels[1..] + [l];
      ToLowerTextAppend(uni, labels[1..], l);
    }
  }

  function QuestionOf(uni: Label -> Label, msg: seq<byte>): Option<(seq<byte>, uint16)> {
    if |msg| < 12 || U16At(msg, 4) < 1 then None
    else
      match NameAt(msg, 12)
      case None => None
      case Some((labels, end)) => if end + 4 > |msg| then None else Some((ToLowerText(uni, labels), U16At(msg, end)))
  }

  /** Where `emptyAnswer` believes the first name ends; a pointer counts two bytes. */
  function NameEnd(msg: seq<byte>, off: nat): (end: nat)
    ensures off <= end
    decreases |msg| - off
  {
    if off >= |msg| then off
    else if msg[off] == 0 then off + 1
    else if msg[off] >= 0x40 then off + 2
    else NameEnd(msg, off + 1 + msg[off])
  }

  function SetTopBit(b: byte): byte {
    if b < 0x80 then b + 0x80 else b
  }

  function EmptyAnswerOf(query: seq<byte>): seq<byte>
    requires |query| >= 12
  {
    var end := NameEnd(query, 12) + 4;
    query[..2] + [SetTopBit(query[2]), SetTopBit(query[3])] + [0, 1, 0, 0, 0, 0, 0, 0]
    + query[12..if end > |query| then |query| else end]
  }

  function SkipName(msg: seq<byte>, off: nat): Option<nat>
    decreases |msg| - off
  {
    if off >= |msg| then None
    else if msg[off] == 0 then Some(off + 1)
    else if msg[off] >= 0xC0 then Some(off + 2)
    else SkipName(msg, off + 1 + msg[off])
  }

  function SkipQuestions(msg: seq<byte>, off: nat, n: nat): Option<nat>
    decreases n
  {
    if n == 0 then Some(off)
    else
      match SkipName(msg, off)
      case None => None
      case Some(o) => if o + 4 > |msg| then None else SkipQuestions(msg, o + 4, n - 1)
  }

  /** TTL of the answer at `off` and where its data ends. */
  function AnswerAt(msg: seq<byte>, off: nat): Option<(uint32, nat)> {
    match SkipName(msg, off)
    case None => None
    case Some(o) => if o + 10 > |msg| then None else Some((U32At(msg, o + 4), o + 10 + U16At(msg, o + 8)))
  }

  /** The TTLs that are scanned: of the first `n` answers, up to one that does not fit. */
  function ScannedTtls(msg: seq<byte>, off: nat, n: nat): seq<uint32>
    decreases n
  {
    if n == 0 then []
    else
      match AnswerAt(msg, off)
      case None => []
      case Some((ttl, next)) => [ttl] + ScannedTtls(msg, next, n - 1)
  }

  function AllTtls(msg: seq<byte>): seq<uint32> {
    if |msg| < 12 then []
    else
      match SkipQuestions(msg, 12, U16At(msg, 4))
      case None => []
      case Some(off) => ScannedTtls(msg, off, U16At(msg, 6))
  }

  /** The least element, or 0 of none. */
  function Least(s: seq<uint32>): uint32 {
    if s == [] then 0
    else if |s| == 1 then s[0]
    else
      var m := Least(s[..|s| - 1]);
      if s[|s| - 1] < m then s[|s| - 1] else m
  }

  lemma {:induction false} LeastIsLeast(s: seq<uint32>)
    ensures s == [] ==> Least(s) == 0
    ensures s != [] ==> Least(s) in s
    ensures forall i :: 0 <= i < |s| ==> Least(s) <= s[i]
  {
    if |s| > 1 {
      LeastIsLeast(s[..|s| - 1]);
    }
  }

  // ----- the scanners -----

  /** Behind `labels`, whose text is `text`, the name goes on at `off`. */
  ghost predicate ReadSoFar(
    uni: Label -> Label, msg: seq<byte>, name: Option<(seq<Label>, nat)>, labels: seq<Label>, text: seq<byte>, off: nat)
  {
    name == Prefixed(labels, NameAt(msg, off)) && text == ToLowerText(uni, labels)
  }

  lemma ReadsNext(
    uni: Label -> Label, msg: seq<byte>, name: Option<(seq<Label>, nat)>, labels: seq<Label>, text: seq<byte>, off: nat,
    l: Label)
    requires ReadSoFar(uni, msg, name, labels, text, off)
    requires off < |msg| && 0 < msg[off] < 0x40 && off + 1 + msg[off] <= |msg| && l == msg[off + 1..off + 1 + msg[off]]
    ensures ReadSoFar(uni, msg, name, labels + [l], text + (ToLower(uni, l) + [DOT]), off + 1 + msg[off])
  {
    PrefixedTwice(labels, [l], NameAt(msg, off + 1 + msg[off]));
    ToLowerTextAppend(uni, labels, l);
  }

  lemma ReadsRoot(
    uni: Label -> Label, msg: seq<byte>, name: Option<(seq<Label>, nat)>, labels: seq<Label>, text: seq<byte>, off: nat)
    requires ReadSoFar(uni, msg, name, labels, text, off) && off < |msg| && msg[off] == 0
    ensures name == Some((labels, off + 1)) && text == ToLowerText(uni, labels)
  {
    assert labels + [] == labels;
  }

  /** The name loop of `parseQuestion`: the text in front of the root and the root's end. */
  method ParseName(uni: Label -> Label, msg: seq<byte>) returns (r: Option<(seq<byte>, nat)>)
    ensures match NameAt(msg, 12) case None => r == None case Some((ls, end)) => r == Some((ToLowerText(uni, ls), end))
  {
    var off: nat, text: seq<byte> := 12, [];
    ghost var labels: seq<Label> := [];
    ghost var name := NameAt(msg, 12);
    PrefixedNone(name);
    while true
      invariant 12 <= off
      invariant ReadSoFar(uni, msg, name, labels, text, off)
      decreases |msg| - off
    {
      if off >= |msg| {
        return None;
      }
      var l: int := msg[off];
      off := off + 1;
      if l == 0 {
        ReadsRoot(uni, msg, name, labels, text, off - 1);
        return Some((text, off));
      }
      if l >= 0x40 || off + l > |msg| {
        return None;
      }
      var part := msg[off..off + l];
      ReadsNext(uni, msg, name, labels, text, off - 1, part);
      labels, text := labels + [part], text + (ToLower(uni, part) + [DOT]);
      off := off + l;
    }
  }

  method ParseQuestion(uni: Label -> Label, msg: seq<byte>) returns (r: Option<(seq<byte>, uint16)>)
    ensures r == QuestionOf(uni, msg)
  {
    if |msg| < 12 || U16At(msg, 4) < 1 {
      return None;
    }
    var name := ParseName(uni, msg);
    if name.None? || name.value.1 + 4 > |msg| {
      return None;
    }
    return Some((name.value.0, U16At(msg, name.value.1)));
  }

  method FirstNameEnd(query: seq<byte>) returns (end: nat)
    requires |query| >= 12
    ensures end == NameEnd(query, 12)
  {
    end := 12;
    while end < |query|
      invariant 12 <= end && NameEnd(query, 12) == NameEnd(query, end)
    {
      var l: int := query[end];
      if l == 0 {
        end := end + 1;
        break;
      }
      if l >= 0x40 {
        end := end + 2;
        break;
      }
      end := end + 1 + l;
    }
  }

  method EmptyAnswer(query: seq<byte>) returns (out: array<byte>)
    requires |query| >= 12
    ensures out[..] == EmptyAnswerOf(query)
  {
    var end := FirstNameEnd(query);
    end := end + 4;
    if end > |query| {
      end := |query|;
    }
    out := new byte[end](i requires 0 <= i < end => query[i]);
    assert out[..] == query[..end];
    MarkEmpty(out);
  }

  /** Sets the top bits of the two flag bytes and the counts 1, 0, 0, 0. */
  method MarkEmpty(out: array<byte>)
    requires out.Length >= 12
    modifies out
    ensures out[..] == old(out[..2]) + [SetTopBit(old(out[2])), SetTopBit(old(out[3]))] + [0, 1, 0, 0, 0, 0, 0, 0]
                       + old(out[12..])
  {
    ghost var was := out[..];
    out[2] := SetTopBit(out[2]);
    out[3] := SetTopBit(out[3]);
    out[4], out[5] := 0, 1;
    out[6], out[7] := 0, 0;
    out[8], out[9] := 0, 0;
    out[10], out[11] := 0, 0;
    assert out[..2] == was[..2] && out[12..] == was[12..];
    assert out[2..4] == [SetTopBit(was[2]), SetTopBit(was[3])] && out[4..12] == [0, 1, 0, 0, 0, 0, 0, 0];
    assert out[..] == out[..2] + out[2..4] + out[4..12] + out[12..];
  }

  method SkipNameAt(msg: seq<byte>, start: nat) returns (r: Option<nat>)
    ensures r == SkipName(msg, start)
  {
    var off: nat := start;
    while true
      invariant SkipName(msg, start) == SkipName(msg, off)
      decreases |msg| - off
    {
      if off >= |msg| {
        return None;
      }
      var l: int := msg[off];
      if l == 0 {
        return Some(off + 1);
      }
      if l >= 0xC0 {
        return Some(off + 2);
      }
      off := off + 1 + l;
    }
  }

  method SkipQuestionSection(msg: seq<byte>, qd: nat) returns (r: Option<nat>)
    ensures r == SkipQuestions(msg, 12, qd)
  {
    var off: nat := 12;
    for i := 0 to qd
      invariant SkipQuestions(msg, 12, qd) == SkipQuestions(msg, off, qd - i)
    {
      var o := SkipNameAt(msg, off);
      if o.None? || o.value + 4 > |msg| {
        return None;
      }
      off := o.value + 4;
    }
    return Some(off);
  }

  lemma LeastAppend(s: seq<uint32>, v: uint32)
    ensures Least(s + [v]) == if s == [] || v < Least(s) then v else Least(s)
  {
    assert (s + [v])[..|s|] == s;
  }

  lemma ScansNext(msg: seq<byte>, done: seq<uint32>, off: nat, n: nat)
    requires n > 0 && AnswerAt(msg, off).Some?
    ensures var (ttl, next) := AnswerAt(msg, off).value;
            done + ScannedTtls(msg, off, n) == (done + [ttl]) + ScannedTtls(msg, next, n - 1)
  {
    var (ttl, next) := AnswerAt(msg, off).value;
    assert done + ([ttl] + ScannedTtls(msg, next, n - 1)) == (done + [ttl]) + ScannedTtls(msg, next, n - 1);
  }

  method ReadAnswer(msg: seq<byte>, off: nat) returns (r: Option<(uint32, nat)>)
    ensures r == AnswerAt(msg, off)
  {
    var o := SkipNameAt(msg, off);
    if o.None? || o.value + 10 > |msg| {
      return None;
    }
    return Some((U32At(msg, o.value + 4), o.value + 10 + U16At(msg, o.value + 8)));
  }

  method LeastAnswerTtl(msg: seq<byte>, start: nat, an: nat) returns (min: uint32)
    ensures min == Least(ScannedTtls(msg, start, an))
  {
    var off: nat := start;
    min := 0;
    ghost var all, done: seq<uint32> := ScannedTtls(msg, start, an), [];
    for i := 0 to an
      invariant all == done + ScannedTtls(msg, off, an - i)
      invariant |done| == i && min == Least(done)
    {
      var a := ReadAnswer(msg, off);
      if a.None? {
        assert ScannedTtls(msg, off, an - i) == [] && done + [] == done;
        return;
      }
      var (ttl, next) := a.value;
      ScansNext(msg, done, off, an - i);
      LeastAppend(done, ttl);
      done := done + [ttl];
      off := next;
      if i == 0 || ttl < min {
        min := ttl;
      }
    }
    assert done + [] == done;
  }

  method MinTtl(msg: seq<byte>) returns (min: uint32)
    ensures min == Least(AllTtls(msg))
  {
    if |msg| < 12 || U16At(msg, 6) == 0 {
      return 0;
    }
    var off := SkipQuestionSection(msg, U16At(msg, 4));
    if off.None? {
      return 0;
    }
    min := LeastAnswerTtl(msg, off.value, U16At(msg, 6));
  }
}
