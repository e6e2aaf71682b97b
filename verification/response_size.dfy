/** The size bound that keeps a plain UDP reply within 512 octets, against the octets themselves. */
module ResponseSizes {
  import opened Names

  const HEADER_SIZE := 12
  const QUESTION_FIXED := 4
  const RECORD_FIXED := 10
  const MAX_UDP_NO_EDNS := 512
  const RDATA_BOUND_FALLBACK := 65_535

  type Bytes = seq<Octet>
  type U16 = x: int | 0 <= x < 0x1_0000
  type U32 = x: int | 0 <= x < 0x1_0000_0000

  /** RDLENGTH is 16 bits, so no RDATA is longer; a character-string's length is one octet. */
  type RdataBytes = b: Bytes | |b| <= 65_535 witness []
  type CharString = b: Bytes | |b| <= 255 witness []
  type Quad = b: Bytes | |b| == 4 witness [0, 0, 0, 0]
  type Hexadec = b: Bytes | |b| == 16 witness [0, 0, 0, 0, 0, 0, 0, 0, 0, 0, 0, 0, 0, 0, 0, 0]

  /** `Other` covers every type without an arm of its own; it may fail to encode when measured. */
  datatype Rdata =
    | A(v4: Quad) | Aaaa(v6: Hexadec)
    | Ns(target: Name) | Cname(target: Name) | Ptr(target: Name)
    | Mx(preference: U16, target: Name)
    | Srv(priority: U16, weight: U16, port: U16, target: Name)
    | Soa(mname: Name, rname: Name, serial: U32, refresh: U32, retry: U32, expire: U32, minimum: U32)
    | Txt(strings: seq<CharString>)
    | Hinfo(cpu: CharString, os: CharString)
    | Other(bytes: RdataBytes, measurable: bool)

  datatype Record = Record(name: Name, rtype: U16, ttl: U32, data: Rdata)

  datatype Question = Question(name: Name, qtype: U16, qclass: U16)

  // ------------------------------------------------------------ on the wire

  function Wire16(x: U16): (b: Bytes)
    ensures |b| == 2 && b[0] as int * 256 + b[1] == x
  {
    [x / 0x100, x % 0x100]
  }

  function Wire32(x: U32): (b: Bytes)
    ensures |b| == 4 && ((b[0] as int * 256 + b[1]) * 256 + b[2]) * 256 + b[3] == x
  {
    Wire16(x / 0x1_0000) + Wire16(x % 0x1_0000)
  }

  function WireName(labels: seq<Label>): (b: Bytes)
    requires LabelsFit(labels)
    ensures |b| == WireLen(labels)
  {
    if labels == [] then [0] else [|labels[0]|] + labels[0] + WireName(labels[1..])
  }

  function WireString(s: CharString): Bytes {
    [|s|] + s
  }

  function WireStrings(ss: seq<CharString>): Bytes {
    if ss == [] then [] else WireString(ss[0]) + WireStrings(ss[1..])
  }

  function WireRdata(d: Rdata): Bytes {
    match d
    case A(v4) => v4
    case Aaaa(v6) => v6
    case Ns(target) => WireName(target)
    case Cname(target) => WireName(target)
    case Ptr(target) => WireName(target)
    case Mx(preference, target) => Wire16(preference) + WireName(target)
    case Srv(priority, weight, port, target) => Wire16(priority) + Wire16(weight) + Wire16(port) + WireName(target)
    case Soa(mname, rname, serial, refresh, retry, expire, minimum) =>
      WireName(mname) + WireName(rname) + Wire32(serial) + Wire32(refresh) + Wire32(retry) + Wire32(expire) + Wire32(minimum)
    case Txt(strings) => WireStrings(strings)
    case Hinfo(cpu, os) => WireString(cpu) + WireString(os)
    case Other(bytes, _) => bytes
  }

  /** No compression; RDLENGTH is written modulo 2^16, which changes no length. */
  function WireRecord(r: Record): Bytes {
    WireName(r.name) + Wire16(r.rtype) + Wire16(1) + Wire32(r.ttl) + Wire16(|WireRdata(r.data)| % 0x1_0000) + WireRdata(r.data)
  }

  function WireRecords(rs: seq<Record>): Bytes {
    if rs == [] then [] else WireRecord(rs[0]) + WireRecords(rs[1..])
  }

  function WireQuestion(q: Question): Bytes {
    WireName(q.name) + Wire16(q.qtype) + Wire16(q.qclass)
  }

  function WireQuestions(qs: seq<Question>): Bytes {
    if qs == [] then [] else WireQuestion(qs[0]) + WireQuestions(qs[1..])
  }

  type Header = b: Bytes | |b| == 12 witness [0, 0, 0, 0, 0, 0, 0, 0, 0, 0, 0, 0]

  function WireMessage(header: Header, questions: seq<Question>, answers: seq<Record>, authority: seq<Record>, additional: seq<Record>): Bytes {
    header + WireQuestions(questions) + WireRecords(answers) + WireRecords(authority) + WireRecords(additional)
  }

  // ------------------------------------------------------------- the bound

  /** The library's documented length of a name: a length octet and the octets per label, and 1 for the root. */
  function NameLen(n: Name): nat {
    if n == [] then 1 else WireLen(n) - 1
  }

  function StringsBound(ss: seq<CharString>): nat {
    if ss == [] then 0 else |ss[0]| + 1 + StringsBound(ss[1..])
  }

  function RdataSizeBound(d: Rdata): nat {
    match d
    case A(_) => 4
    case Aaaa(_) => 16
    case Ns(target) => NameLen(target) + 1
    case Cname(target) => NameLen(target) + 1
    case Ptr(target) => NameLen(target) + 1
    case Mx(_, target) => 2 + NameLen(target) + 1
    case Srv(_, _, _, target) => 6 + NameLen(target) + 1
    case Soa(mname, rname, _, _, _, _, _) => NameLen(mname) + 1 + NameLen(rname) + 1 + 20
    case Txt(strings) => StringsBound(strings)
    case Hinfo(cpu, os) => |cpu| + 1 + |os| + 1
    case Other(bytes, measurable) => if measurable then |bytes| else RDATA_BOUND_FALLBACK
  }

  function RecordSizeBound(r: Record): nat {
    NameLen(r.name) + 1 + RECORD_FIXED + RdataSizeBound(r.data)
  }

  function SumOfBounds(rs: seq<Record>): nat {
    if rs == [] then 0 else RecordSizeBound(rs[0]) + SumOfBounds(rs[1..])
  }

  function QuestionBound(questions: seq<Question>): nat {
    if questions == [] then 0 else NameLen(questions[0].name) + 1 + QUESTION_FIXED
  }

  function ResponseSizeBound(questions: seq<Question>, answers: seq<Record>, authority: seq<Record>, additional: seq<Record>): nat {
    HEADER_SIZE + QuestionBound(questions) + SumOfBounds(answers + authority + additional)
  }

  // --------------------------------------------------------- what it is worth

  /** The octets by which the bound overshoots an RDATA: one for each root name, and the fallback's guess. */
  function RdataSlack(d: Rdata): nat {
    match d
    case Ns(target) => RootSlack(target)
    case Cname(target) => RootSlack(target)
    case Ptr(target) => RootSlack(target)
    case Mx(_, target) => RootSlack(target)
    case Srv(_, _, _, target) => RootSlack(target)
    case Soa(mname, rname, _, _, _, _, _) => RootSlack(mname) + RootSlack(rname)
    case Other(bytes, measurable) => if measurable then 0 else 65_535 - |bytes|
    case _ => 0
  }

  function RootSlack(n: Name): nat {
    if n == [] then 1 else 0
  }

  function Slack(rs: seq<Record>): nat {
    if rs == [] then 0 else RootSlack(rs[0].name) + RdataSlack(rs[0].data) + Slack(rs[1..])
  }

  lemma {:induction false} StringsAreExact(ss: seq<CharString>)
    ensures |WireStrings(ss)| == StringsBound(ss)
  {
    if ss != [] { StringsAreExact(ss[1..]); }
  }

  lemma NameIsExact(n: Name)
    ensures |WireName(n)| + RootSlack(n) == NameLen(n) + 1
  {
    if n != [] { assert WireLen(n) >= 1; }
  }

  /** Every kind of RDATA, measured or guessed: never less than its octets. */
  lemma RdataIsExact(d: Rdata)
    ensures |WireRdata(d)| + RdataSlack(d) == RdataSizeBound(d)
  {
    match d
    case Ns(target) => NameIsExact(target);
    case Cname(target) => NameIsExact(target);
    case Ptr(target) => NameIsExact(target);
    case Mx(_, target) => NameIsExact(target);
    case Srv(_, _, _, target) => NameIsExact(target);
    case Soa(mname, rname, _, _, _, _, _) => NameIsExact(mname); NameIsExact(rname);
    case Txt(strings) => StringsAreExact(strings);
    case _ =>
  }

  lemma {:induction false} RecordsAreExact(rs: seq<Record>)
    ensures |WireRecords(rs)| + Slack(rs) == SumOfBounds(rs)
  {
    if rs != [] {
      RecordsAreExact(rs[1..]);
      NameIsExact(rs[0].name);
      RdataIsExact(rs[0].data);
    }
  }

  lemma {:induction false} BoundsJoin(a: seq<Record>, b: seq<Record>)
    ensures SumOfBounds(a + b) == SumOfBounds(a) + SumOfBounds(b)
  {
    if a == [] {
      assert a + b == b;
    } else {
      assert (a + b)[1..] == a[1..] + b;
      BoundsJoin(a[1..], b);
    }
  }

  /** The octets of the questions the bound does not look at. */
  function FurtherQuestions(questions: seq<Question>): nat {
    if questions == [] then 0 else |WireQuestions(questions[1..])|
  }

  function FirstQuestionSlack(questions: seq<Question>): nat {
    if questions == [] then 0 else RootSlack(questions[0].name)
  }

  /** The bound is the uncompressed length, plus its slack, less whatever questions past the first are echoed. */
  lemma BoundIsLengthAndSlack(
    header: Header, questions: seq<Question>, answers: seq<Record>, authority: seq<Record>, additional: seq<Record>)
    ensures ResponseSizeBound(questions, answers, authority, additional) + FurtherQuestions(questions)
         == |WireMessage(header, questions, answers, authority, additional)|
            + Slack(answers) + Slack(authority) + Slack(additional) + FirstQuestionSlack(questions)
  {
    RecordsAreExact(answers);
    RecordsAreExact(authority);
    RecordsAreExact(additional);
    BoundsJoin(answers + authority, additional);
    BoundsJoin(answers, authority);
    if questions != [] { NameIsExact(questions[0].name); }
  }

  // ------------------------------------------------------- the truncation step

  datatype Protocol = Udp | Tcp

  class Resolved {
    var answers: seq<Record>
    var authority: seq<Record>
    var additional: seq<Record>

    constructor (answers: seq<Record>, authority: seq<Record>, additional: seq<Record>)
      ensures this.answers == answers && this.authority == authority && this.additional == additional
    {
      this.answers, this.authority, this.additional := answers, authority, additional;
    }

    /** A plain UDP reply that might not fit loses all its records and gains TC; any other is sent as it is. */
    method FitPlainUdp(protocol: Protocol, edns: bool, questions: seq<Question>) returns (truncated: bool)
      modifies this
      ensures truncated <==> protocol == Udp && !edns
                             && ResponseSizeBound(questions, old(answers), old(authority), old(additional)) > 512
      ensures if truncated then answers == [] && authority == [] && additional == []
              else answers == old(answers) && authority == old(authority) && additional == old(additional)
      ensures protocol == Udp && !edns && |questions| <= 1 ==>
                forall h: Header :: |WireMessage(h, questions, answers, authority, additional)| <= 512
      ensures forall h: Header :: |WireMessage(h, questions, answers, authority, additional)| <= 512
                <==> EchoFits(questions, answers, authority, additional)
    {
      truncated := false;
      ghost var a, b, c := answers, authority, additional;
      if protocol == Udp && !edns && ResponseSizeBound(questions, answers, authority, additional) > MAX_UDP_NO_EDNS {
        answers := [];
        authority := [];
        additional := [];
        truncated := true;
      }
      forall h: Header
        ensures protocol == Udp && !edns && |questions| <= 1 ==>
                  |WireMessage(h, questions, answers, authority, additional)| <= 512
        ensures |WireMessage(h, questions, answers, authority, additional)| <= 512
           <==> EchoFits(questions, answers, authority, additional)
      {
        if |questions| <= 1 { PlainReplyFits(h, questions, a, b, c); }
        BoundIsLengthAndSlack(h, questions, answers, authority, additional);
      }
    }
  }

  /** The bound and the questions it does not look at, less what it overshoots by, come to 512 octets at most. */
  predicate EchoFits(questions: seq<Question>, answers: seq<Record>, authority: seq<Record>, additional: seq<Record>) {
    ResponseSizeBound(questions, answers, authority, additional) + FurtherQuestions(questions)
      <= 512 + Slack(answers) + Slack(authority) + Slack(additional) + FirstQuestionSlack(questions)
  }

  /** Either the whole reply is within 512 octets, or what is left of it when its sections are dropped. */
  lemma PlainReplyFits(
    header: Header, questions: seq<Question>, answers: seq<Record>, authority: seq<Record>, additional: seq<Record>)
    requires |questions| <= 1
    ensures ResponseSizeBound(questions, answers, authority, additional) <= 512 ==>
              |WireMessage(header, questions, answers, authority, additional)| <= 512
    ensures |WireMessage(header, questions, [], [], [])| <= 512
  {
    BoundIsLengthAndSlack(header, questions, answers, authority, additional);
    if questions != [] {
      assert questions[1..] == [];
      assert |WireQuestions(questions)| == |WireQuestion(questions[0])| <= 255 + QUESTION_FIXED;
    }
  }

  /** Without root names or unmeasurable RDATA, sections are dropped exactly when the uncompressed reply is too long. */
  lemma NothingDroppedForNothing(
    header: Header, questions: seq<Question>, answers: seq<Record>, authority: seq<Record>, additional: seq<Record>)
    requires |questions| <= 1 && (questions != [] ==> questions[0].name != [])
    requires Slack(answers) == 0 && Slack(authority) == 0 && Slack(additional) == 0
    ensures ResponseSizeBound(questions, answers, authority, additional) > 512
       <==> |WireMessage(header, questions, answers, authority, additional)| > 512
  {
    BoundIsLengthAndSlack(header, questions, answers, authority, additional);
    if questions != [] { assert questions[1..] == []; }
  }
}
