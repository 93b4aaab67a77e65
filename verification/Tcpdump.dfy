/** The tcpdump tool: from its configuration to the filter text, and what that text means. */
module Tcpdump {
  import opened Collections
  import opened GoStrings

  datatype Config = Config(source: string, destination: string, host: string, pid: string, tcpOnly: bool)

  /** What the tool's fields hold. */
  datatype Settings = Settings(srcIP: string, srcPort: string, dstIP: string, dstPort: string,
                               hostIP: string, hostPort: string, pid: string, tcpOnly: bool)

  // ----- parsing <ip>:<port>

  function IndexOf(s: string, c: char): (i: int)
    ensures -1 <= i < |s|
    ensures i == -1 <==> c !in s
    ensures i >= 0 ==> s[i] == c && c !in s[..i]
  {
    if s == "" then -1
    else if s[0] == c then 0
    else
      var i := IndexOf(s[1..], c);
      assert i >= 0 ==> s[..i+1] == [s[0]] + s[1..][..i];
      if i == -1 then -1 else i + 1
  }

  /** Cuts at the first colon, if there is one. */
  function ParseIPAndPort(s: string): (r: (string, string))
    ensures ':' !in r.0
    ensures if ':' in s then s == r.0 + ":" + r.1 else r == (s, "")
  {
    var colon := IndexOf(s, ':');
    if colon == -1 then (s, "") else (s[..colon], s[colon+1..])
  }

  /** Address and port come back exactly when the address has no colon; so an IPv6 address never does. */
  lemma AddressSurvivesExactly(ip: string, port: string)
    ensures ParseIPAndPort(ip + ":" + port) == (ip, port) <==> ':' !in ip
  {
    var s := ip + ":" + port;
    var r := ParseIPAndPort(s);
    assert s[|ip|] == ':';
    if ':' !in ip {
      assert s[|r.0|] == ':';
      assert forall k :: 0 <= k < |ip| ==> s[k] == ip[k];
      assert forall k :: 0 <= k < |r.0| ==> s[k] == r.0[k];
      assert |r.0| == |ip|;
      assert s[..|ip|] == ip == r.0;
      assert s[|ip|+1..] == port == r.1;
    }
  }

  /** The text names this address and this port, either of which may be empty. */
  predicate Endpoint(text: string, address: string, port: string) {
    ':' !in address && (text == address + ":" + port || (text == address && port == ""))
  }

  /** Every text does so in one way, which is how it is parsed. */
  lemma EndpointIsParsed(text: string, address: string, port: string)
    ensures Endpoint(text, address, port) <==> ParseIPAndPort(text) == (address, port)
  {
    AddressSurvivesExactly(address, port);
  }

  function Configured(c: Config): Settings {
    var src, dst, host := ParseIPAndPort(c.source), ParseIPAndPort(c.destination), ParseIPAndPort(c.host);
    Settings(src.0, src.1, dst.0, dst.1, host.0, host.1, c.pid, c.tcpOnly)
  }

  // ----- primitives of a filter

  datatype Primitive = Src(a: string) | SrcPort(p: string) | Dst(a: string) | DstPort(p: string)
                     | Host(a: string) | Port(p: string) | Tcp

  function Words(p: Primitive): seq<string> {
    match p
    case Src(a) => ["src", a]
    case SrcPort(q) => ["src", "port", q]
    case Dst(a) => ["dst", a]
    case DstPort(q) => ["dst", "port", q]
    case Host(a) => ["host", a]
    case Port(q) => ["port", q]
    case Tcp => ["tcp"]
  }

  function When(condition: bool, p: Primitive): seq<Primitive> {
    if condition then [p] else []
  }

  /** The primitives for the fields that are set. */
  function Primitives(s: Settings): seq<Primitive> {
    [] + When(s.srcIP != "", Src(s.srcIP)) + When(s.srcPort != "", SrcPort(s.srcPort))
    + When(s.dstIP != "", Dst(s.dstIP)) + When(s.dstPort != "", DstPort(s.dstPort))
    + When(s.hostIP != "", Host(s.hostIP)) + When(s.hostPort != "", Port(s.hostPort))
    + When(s.tcpOnly, Tcp)
  }

  function Text(p: Primitive): string {
    Join(Words(p), " ")
  }

  const DEFAULT_ARGUMENTS := "-nvvv"

  function FilterText(s: Settings): string {
    DEFAULT_ARGUMENTS + " " + Join(Map(Text, Primitives(s)), " and ")
  }

  lemma TwoWords(word: string, v: string)
    ensures Join([word, v], " ") == word + " " + v
  {
    assert [word, v][1..] == [v];
  }

  lemma ThreeWords(word: string, v: string)
    ensures Join([word, "port", v], " ") == word + " port " + v
  {
    assert [word, "port", v][1..] == ["port", v];
    TwoWords("port", v);
    assert word + " " + ("port" + " " + v) == word + " port " + v;
  }

  lemma TextSrc(v: string)
    ensures Text(Src(v)) == "src " + v
  {
    TwoWords("src", v);
    assert "src" + " " == "src ";
  }

  lemma TextSrcPort(v: string)
    ensures Text(SrcPort(v)) == "src port " + v
  {
    ThreeWords("src", v);
    assert "src" + " port " == "src port ";
  }

  lemma TextDst(v: string)
    ensures Text(Dst(v)) == "dst " + v
  {
    TwoWords("dst", v);
    assert "dst" + " " == "dst ";
  }

  lemma TextDstPort(v: string)
    ensures Text(DstPort(v)) == "dst port " + v
  {
    ThreeWords("dst", v);
    assert "dst" + " port " == "dst port ";
  }

  lemma TextHost(v: string)
    ensures Text(Host(v)) == "host " + v
  {
    TwoWords("host", v);
    assert "host" + " " == "host ";
  }

  lemma TextPort(v: string)
    ensures Text(Port(v)) == "port " + v
  {
    TwoWords("port", v);
    assert "port" + " " == "port ";
  }

  lemma TextTcp()
    ensures Text(Tcp) == "tcp"
  {
  }

  function Optional(condition: bool, text: string): seq<string> {
    if condition then [text] else []
  }

  /** The texts for the fields that are set. */
  function Texts(s: Settings): seq<string> {
    [] + Optional(s.srcIP != "", "src " + s.srcIP) + Optional(s.srcPort != "", "src port " + s.srcPort)
    + Optional(s.dstIP != "", "dst " + s.dstIP) + Optional(s.dstPort != "", "dst port " + s.dstPort)
    + Optional(s.hostIP != "", "host " + s.hostIP) + Optional(s.hostPort != "", "port " + s.hostPort)
    + Optional(s.tcpOnly, "tcp")
  }

  /** The texts so far are those of the primitives so far. */
  predicate Written(texts: seq<string>, ps: seq<Primitive>) {
    texts == Map(Text, ps)
  }

  lemma WrittenWhen(texts: seq<string>, ps: seq<Primitive>, condition: bool, p: Primitive, text: string)
    requires Written(texts, ps) && text == Text(p)
    ensures Written(texts + Optional(condition, text), ps + When(condition, p))
  {
    if !condition {
      assert ps + When(condition, p) == ps;
    }
  }

  lemma WrittenSrc(texts: seq<string>, ps: seq<Primitive>, v: string)
    requires Written(texts, ps)
    ensures Written(texts + Optional(v != "", "src " + v), ps + When(v != "", Src(v)))
  {
    TextSrc(v);
    WrittenWhen(texts, ps, v != "", Src(v), "src " + v);
  }

  lemma WrittenSrcPort(texts: seq<string>, ps: seq<Primitive>, v: string)
    requires Written(texts, ps)
    ensures Written(texts + Optional(v != "", "src port " + v), ps + When(v != "", SrcPort(v)))
  {
    TextSrcPort(v);
    WrittenWhen(texts, ps, v != "", SrcPort(v), "src port " + v);
  }

  lemma WrittenDst(texts: seq<string>, ps: seq<Primitive>, v: string)
    requires Written(texts, ps)
    ensures Written(texts + Optional(v != "", "dst " + v), ps + When(v != "", Dst(v)))
  {
    TextDst(v);
    WrittenWhen(texts, ps, v != "", Dst(v), "dst " + v);
  }

  lemma WrittenDstPort(texts: seq<string>, ps: seq<Primitive>, v: string)
    requires Written(texts, ps)
    ensures Written(texts + Optional(v != "", "dst port " + v), ps + When(v != "", DstPort(v)))
  {
    TextDstPort(v);
    WrittenWhen(texts, ps, v != "", DstPort(v), "dst port " + v);
  }

  lemma WrittenHost(texts: seq<string>, ps: seq<Primitive>, v: string)
    requires Written(texts, ps)
    ensures Written(texts + Optional(v != "", "host " + v), ps + When(v != "", Host(v)))
  {
    TextHost(v);
    WrittenWhen(texts, ps, v != "", Host(v), "host " + v);
  }

  lemma WrittenPort(texts: seq<string>, ps: seq<Primitive>, v: string)
    requires Written(texts, ps)
    ensures Written(texts + Optional(v != "", "port " + v), ps + When(v != "", Port(v)))
  {
    TextPort(v);
    WrittenWhen(texts, ps, v != "", Port(v), "port " + v);
  }

  lemma WrittenTcp(texts: seq<string>, ps: seq<Primitive>, tcpOnly: bool)
    requires Written(texts, ps)
    ensures Written(texts + Optional(tcpOnly, "tcp"), ps + When(tcpOnly, Tcp))
  {
    TextTcp();
    WrittenWhen(texts, ps, tcpOnly, Tcp, "tcp");
  }

  /** They are the texts of the primitives. */
  lemma TextsOfPrimitives(s: Settings)
    ensures Written(Texts(s), Primitives(s))
  {
    WrittenSrc([], [], s.srcIP);
    var t1, p1 := [] + Optional(s.srcIP != "", "src " + s.srcIP), [] + When(s.srcIP != "", Src(s.srcIP));
    WrittenSrcPort(t1, p1, s.srcPort);
    var t2, p2 := t1 + Optional(s.srcPort != "", "src port " + s.srcPort),
                  p1 + When(s.srcPort != "", SrcPort(s.srcPort));
    WrittenDst(t2, p2, s.dstIP);
    var t3, p3 := t2 + Optional(s.dstIP != "", "dst " + s.dstIP), p2 + When(s.dstIP != "", Dst(s.dstIP));
    WrittenDstPort(t3, p3, s.dstPort);
    var t4, p4 := t3 + Optional(s.dstPort != "", "dst port " + s.dstPort),
                  p3 + When(s.dstPort != "", DstPort(s.dstPort));
    WrittenHost(t4, p4, s.hostIP);
    var t5, p5 := t4 + Optional(s.hostIP != "", "host " + s.hostIP), p4 + When(s.hostIP != "", Host(s.hostIP));
    WrittenPort(t5, p5, s.hostPort);
    var t6, p6 := t5 + Optional(s.hostPort != "", "port " + s.hostPort),
                  p5 + When(s.hostPort != "", Port(s.hostPort));
    WrittenTcp(t6, p6, s.tcpOnly);
  }

  class TcpdumpTool {
    var srcIP: string
    var srcPort: string
    var dstIP: string
    var dstPort: string
    var hostIP: string
    var hostPort: string
    var pid: string
    var tcpOnly: bool

    constructor ()
      ensures View() == Settings("", "", "", "", "", "", "", false)
    {
      srcIP, srcPort, dstIP, dstPort, hostIP, hostPort, pid, tcpOnly := "", "", "", "", "", "", "", false;
    }

    function View(): Settings
      reads this
    {
      Settings(srcIP, srcPort, dstIP, dstPort, hostIP, hostPort, pid, tcpOnly)
    }

    /** The fields depend on this configuration alone: nothing of an earlier call is left. */
    method ParseParameters(config: Config)
      modifies this
      ensures View() == Configured(config)
      ensures Endpoint(config.source, srcIP, srcPort)
      ensures Endpoint(config.destination, dstIP, dstPort)
      ensures Endpoint(config.host, hostIP, hostPort)
      ensures pid == config.pid && tcpOnly == config.tcpOnly
    {
      var src := ParseIPAndPort(config.source);
      srcIP, srcPort := src.0, src.1;
      var dst := ParseIPAndPort(config.destination);
      dstIP, dstPort := dst.0, dst.1;
      var host := ParseIPAndPort(config.host);
      hostIP, hostPort := host.0, host.1;
      pid := config.pid;
      tcpOnly := config.tcpOnly;
    }

    static method AppendIfSet(cmd: seq<string>, words: string, value: string) returns (longer: seq<string>)
      ensures longer == cmd + Optional(value != "", words + value)
    {
      longer := cmd;
      if |value| > 0 {
        longer := longer + [words + value];
      }
    }

    method GenerateTcpdumpParameters() returns (text: string)
      ensures text == FilterText(View())
    {
      var cmd := AppendIfSet([], "src ", srcIP);
      cmd := AppendIfSet(cmd, "src port ", srcPort);
      cmd := AppendIfSet(cmd, "dst ", dstIP);
      cmd := AppendIfSet(cmd, "dst port ", dstPort);
      cmd := AppendIfSet(cmd, "host ", hostIP);
      cmd := AppendIfSet(cmd, "port ", hostPort);
      ghost var addressed := cmd;
      if tcpOnly {
        cmd := cmd + ["tcp"];
      }
      assert cmd == addressed + Optional(tcpOnly, "tcp");
      assert addressed + Optional(tcpOnly, "tcp") == Texts(View());
      TextsOfPrimitives(View());
      text := DEFAULT_ARGUMENTS + " " + Join(cmd, " and ");
    }

    /** Starts what has to be started, and returns it; `nsenterFails` is what becomes of the first. */
    method Run(config: Config, nsenterFails: bool) returns (launches: seq<seq<string>>)
      modifies this
      ensures View() == Configured(config)
      ensures launches == Launches(config, nsenterFails)
    {
      ParseParameters(config);
      var tcpdumpArgs := GenerateTcpdumpParameters();
      launches := [];
      if |config.pid| > 0 {
        launches := [["nsenter", "-n", "-t", config.pid]];
        if nsenterFails {
          return;
        }
      }
      launches := launches + [Command(tcpdumpArgs)];
    }
  }

  // ----- what is started, and in which network namespace

  function Command(arguments: string): seq<string> {
    ["tcpdump"] + Split(arguments, ' ')
  }

  function Launches(c: Config, nsenterFails: bool): seq<seq<string>> {
    var capture := Command(FilterText(Configured(c)));
    if c.pid == "" then [capture]
    else if nsenterFails then [["nsenter", "-n", "-t", c.pid]]
    else [["nsenter", "-n", "-t", c.pid], capture]
  }

  datatype Namespace = Own | OfProcess(pid: string)

  /** A program and the network namespace it runs in. */
  datatype Running = Running(program: seq<string>, namespace: Namespace)

  const SHELL := ["/bin/sh"]

  /** A command starts in the namespace of the tool. nsenter(1) called with these options enters that of
      the process and becomes the program that follows, or a shell if none does; the tool that started it
      stays where it is. */
  function Started(argv: seq<string>): Running {
    if |argv| >= 4 && argv[..3] == ["nsenter", "-n", "-t"]
    then Running(if argv[4..] == [] then SHELL else argv[4..], OfProcess(argv[3]))
    else Running(argv, Own)
  }

  predicate IsTcpdump(r: Running) {
    r.program != [] && r.program[0] == "tcpdump"
  }

  /** Where the tool's help says the packets are watched. */
  function Requested(c: Config): Namespace {
    if c.pid == "" then Own else OfProcess(c.pid)
  }

  /** tcpdump only ever runs in the namespace of the tool, so packets are captured in the requested one
      exactly if no process was named, or nothing is captured; a process named gets a shell. */
  lemma AttachesExactly(c: Config, nsenterFails: bool)
    ensures forall l :: l in Launches(c, nsenterFails) && IsTcpdump(Started(l)) ==> Started(l).namespace == Own
    ensures (exists l :: l in Launches(c, nsenterFails) && IsTcpdump(Started(l))) <==> c.pid == "" || !nsenterFails
    ensures (forall l :: l in Launches(c, nsenterFails) && IsTcpdump(Started(l)) ==>
                         Started(l).namespace == Requested(c)) <==> c.pid == "" || nsenterFails
    ensures c.pid != "" ==> Started(Launches(c, nsenterFails)[0]) == Running(SHELL, Requested(c))
  {
    var capture := Command(FilterText(Configured(c)));
    CaptureStarts(capture);
    EntersNamespace(c.pid, []);
    assert ["nsenter", "-n", "-t", c.pid] + [] == ["nsenter", "-n", "-t", c.pid];
    if c.pid == "" || !nsenterFails {
      assert capture in Launches(c, nsenterFails);
    }
  }

  lemma CaptureStarts(capture: seq<string>)
    requires capture != [] && capture[0] == "tcpdump"
    ensures Started(capture) == Running(capture, Own)
  {
    if |capture| >= 4 {
      assert capture[..3][0] == "tcpdump";
    }
  }

  /** Put behind nsenter's options any program would run where it should. */
  lemma EntersNamespace(pid: string, program: seq<string>)
    ensures Started(["nsenter", "-n", "-t", pid] + program)
         == Running(if program == [] then SHELL else program, OfProcess(pid))
  {
    var argv := ["nsenter", "-n", "-t", pid] + program;
    assert argv[..3] == ["nsenter", "-n", "-t"];
    assert argv[4..] == program;
  }

  // ----- reading a filter back

  /** A number not above the maximum, in decimal digits without leading zeros. */
  predicate IsNumber(v: string, max: nat) {
    exists n: nat | n <= max :: v == Decimal(n)
  }

  function Dotted(a: nat, b: nat, c: nat, d: nat): string {
    Decimal(a) + "." + Decimal(b) + "." + Decimal(c) + "." + Decimal(d)
  }

  /** An IPv4 address. */
  predicate IsAddress(v: string) {
    exists a: nat, b: nat, c: nat, d: nat | a <= 255 && b <= 255 && c <= 255 && d <= 255 :: v == Dotted(a, b, c, d)
  }

  predicate IsPort(v: string) {
    IsNumber(v, 65535)
  }

  predicate Valid(p: Primitive) {
    match p
    case Tcp => true
    case Src(a) => IsAddress(a)
    case SrcPort(q) => IsPort(q)
    case Dst(a) => IsAddress(a)
    case DstPort(q) => IsPort(q)
    case Host(a) => IsAddress(a)
    case Port(q) => IsPort(q)
  }

  /** The primitive the tokens begin with, whatever its value, and the tokens after it. */
  function FirstPrimitive(t: seq<string>): (r: Option<(Primitive, seq<string>)>)
    ensures r.Some? ==> |r.value.1| < |t|
  {
    if |t| >= 3 && t[0] == "src" && t[1] == "port" then Some((SrcPort(t[2]), t[3..]))
    else if |t| >= 3 && t[0] == "dst" && t[1] == "port" then Some((DstPort(t[2]), t[3..]))
    else if |t| >= 2 && t[0] == "src" then Some((Src(t[1]), t[2..]))
    else if |t| >= 2 && t[0] == "dst" then Some((Dst(t[1]), t[2..]))
    else if |t| >= 2 && t[0] == "host" then Some((Host(t[1]), t[2..]))
    else if |t| >= 2 && t[0] == "port" then Some((Port(t[1]), t[2..]))
    else if |t| >= 1 && t[0] == "tcp" then Some((Tcp, t[1..]))
    else None
  }

  /** Only IPv4 addresses and port numbers are read as values. */
  function ReadPrimitive(t: seq<string>): (r: Option<(Primitive, seq<string>)>)
    ensures r.Some? ==> |r.value.1| < |t| && Valid(r.value.0)
  {
    var r := FirstPrimitive(t);
    if r.Some? && Valid(r.value.0) then r else None
  }

  /** pcap-filter(7), for conjunctions of these primitives. */
  function ReadConjunction(t: seq<string>): Option<seq<Primitive>>
    decreases |t|
  {
    match ReadPrimitive(t)
    case None => None
    case Some((p, rest)) =>
      if rest == [] then Some([p])
      else if rest[0] != "and" then None
      else match ReadConjunction(rest[1..])
        case None => None
        case Some(ps) => Some([p] + ps)
  }

  /** tcpdump joins its non-option arguments by spaces; the empty filter accepts every packet. */
  function ReadFilter(args: seq<string>): Option<seq<Primitive>> {
    if args == [] || args == [""] then Some([]) else ReadConjunction(args)
  }

  predicate AllValid(ps: seq<Primitive>) {
    forall k :: 0 <= k < |ps| ==> Valid(ps[k])
  }

  /** Digits and dots, beginning with a digit. */
  predicate IsNumeric(v: string) {
    v != "" && IsDigit(v[0]) && forall k :: 0 <= k < |v| ==> IsDigit(v[k]) || v[k] == '.'
  }

  lemma NumberIsNumeric(v: string, max: nat)
    requires IsNumber(v, max)
    ensures IsNumeric(v)
  {
    var n: nat :| n <= max && v == Decimal(n);
    DecimalDigits(n);
  }

  lemma NumericDot(a: string, b: string)
    requires IsNumeric(a) && IsNumeric(b)
    ensures IsNumeric(a + "." + b)
  {
  }

  lemma AddressIsNumeric(v: string)
    requires IsAddress(v)
    ensures IsNumeric(v)
  {
    var a: nat, b: nat, c: nat, d: nat :|
      a <= 255 && b <= 255 && c <= 255 && d <= 255 && v == Dotted(a, b, c, d);
    DecimalDigits(a);
    DecimalDigits(b);
    DecimalDigits(c);
    DecimalDigits(d);
    NumericDot(Decimal(a), Decimal(b));
    NumericDot(Decimal(a) + "." + Decimal(b), Decimal(c));
    NumericDot(Decimal(a) + "." + Decimal(b) + "." + Decimal(c), Decimal(d));
  }

  lemma ValuesAreNumeric(p: Primitive)
    requires Valid(p)
    ensures match p
            case Tcp => true
            case Src(a) => IsNumeric(a)
            case SrcPort(q) => IsNumeric(q)
            case Dst(a) => IsNumeric(a)
            case DstPort(q) => IsNumeric(q)
            case Host(a) => IsNumeric(a)
            case Port(q) => IsNumeric(q)
  {
    match p
    case Tcp =>
    case Src(a) => AddressIsNumeric(a);
    case SrcPort(q) => NumberIsNumeric(q, 65535);
    case Dst(a) => AddressIsNumeric(a);
    case DstPort(q) => NumberIsNumeric(q, 65535);
    case Host(a) => AddressIsNumeric(a);
    case Port(q) => NumberIsNumeric(q, 65535);
  }

  lemma ReadOne(p: Primitive, rest: seq<string>)
    requires Valid(p)
    ensures ReadPrimitive(Words(p) + rest) == Some((p, rest))
  {
    ValuesAreNumeric(p);
    var t := Words(p) + rest;
    assert t[|Words(p)|..] == rest;
  }

  function Tokens(ps: seq<Primitive>): seq<string> {
    if |ps| == 0 then [""]
    else if |ps| == 1 then Words(ps[0])
    else Words(ps[0]) + ["and"] + Tokens(ps[1..])
  }

  lemma {:induction false} ReadTokens(ps: seq<Primitive>)
    requires ps != [] && AllValid(ps)
    ensures ReadConjunction(Tokens(ps)) == Some(ps)
  {
    if |ps| == 1 {
      ReadOne(ps[0], []);
      assert Words(ps[0]) + [] == Words(ps[0]);
      assert ps == [ps[0]];
    } else {
      var more := ["and"] + Tokens(ps[1..]);
      assert Tokens(ps) == Words(ps[0]) + more;
      ReadOne(ps[0], more);
      ReadTokens(ps[1..]);
      assert more[1..] == Tokens(ps[1..]);
      assert ps == [ps[0]] + ps[1..];
    }
  }

  lemma JoinAnd(first: seq<string>, rest: seq<string>)
    requires first != [] && rest != []
    ensures Join(first + ["and"] + rest, " ") == Join(first, " ") + " and " + Join(rest, " ")
  {
    JoinConcat(first + ["and"], rest, " ");
    JoinConcat(first, ["and"], " ");
    Spaces(Join(first, " "), Join(rest, " "));
  }

  lemma Spaces(a: string, b: string)
    ensures a + " " + "and" + " " + b == a + " and " + b
  {
  }

  /** The filter text is its tokens joined by spaces. */
  lemma {:induction false} TextIsTokens(ps: seq<Primitive>)
    requires ps != []
    ensures Join(Map(Text, ps), " and ") == Join(Tokens(ps), " ")
  {
    if |ps| > 1 {
      TextIsTokens(ps[1..]);
      assert Map(Text, ps)[1..] == Map(Text, ps[1..]);
      JoinAnd(Words(ps[0]), Tokens(ps[1..]));
    }
  }

  ghost predicate OneWord(t: seq<string>) {
    forall k :: 0 <= k < |t| ==> ' ' !in t[k]
  }

  lemma WordsHaveNoSpace(p: Primitive)
    requires Valid(p)
    ensures OneWord(Words(p))
  {
    ValuesAreNumeric(p);
  }

  lemma {:induction false} TokensHaveNoSpace(ps: seq<Primitive>)
    requires AllValid(ps)
    ensures OneWord(Tokens(ps))
  {
    if |ps| > 0 {
      WordsHaveNoSpace(ps[0]);
      TokensHaveNoSpace(ps[1..]);
    }
  }

  lemma SplitTexts(ps: seq<Primitive>)
    requires AllValid(ps)
    ensures Split(Join(Map(Text, ps), " and "), ' ') == Tokens(ps)
  {
    if ps != [] {
      TextIsTokens(ps);
      TokensHaveNoSpace(ps);
      SplitJoin(Tokens(ps), ' ');
    }
  }

  /** The addresses set are IPv4 addresses and the ports set are port numbers. */
  predicate ValidSettings(s: Settings) {
    && (s.srcIP != "" ==> IsAddress(s.srcIP)) && (s.srcPort != "" ==> IsPort(s.srcPort))
    && (s.dstIP != "" ==> IsAddress(s.dstIP)) && (s.dstPort != "" ==> IsPort(s.dstPort))
    && (s.hostIP != "" ==> IsAddress(s.hostIP)) && (s.hostPort != "" ==> IsPort(s.hostPort))
  }

  lemma ValidWhen(ps: seq<Primitive>, condition: bool, p: Primitive)
    ensures AllValid(ps + When(condition, p)) <==> AllValid(ps) && (condition ==> Valid(p))
  {
    var all := ps + When(condition, p);
    if AllValid(all) {
      assert forall k :: 0 <= k < |ps| ==> ps[k] == all[k];
      assert condition ==> all[|ps|] == p;
    }
  }

  lemma ValidPrimitives(s: Settings)
    ensures AllValid(Primitives(s)) <==> ValidSettings(s)
  {
    var p1 := [] + When(s.srcIP != "", Src(s.srcIP));
    var p2 := p1 + When(s.srcPort != "", SrcPort(s.srcPort));
    var p3 := p2 + When(s.dstIP != "", Dst(s.dstIP));
    var p4 := p3 + When(s.dstPort != "", DstPort(s.dstPort));
    var p5 := p4 + When(s.hostIP != "", Host(s.hostIP));
    var p6 := p5 + When(s.hostPort != "", Port(s.hostPort));
    ValidWhen([], s.srcIP != "", Src(s.srcIP));
    ValidWhen(p1, s.srcPort != "", SrcPort(s.srcPort));
    ValidWhen(p2, s.dstIP != "", Dst(s.dstIP));
    ValidWhen(p3, s.dstPort != "", DstPort(s.dstPort));
    ValidWhen(p4, s.hostIP != "", Host(s.hostIP));
    ValidWhen(p5, s.hostPort != "", Port(s.hostPort));
    ValidWhen(p6, s.tcpOnly, Tcp);
  }

  /** Whatever is read has values of the right form. */
  lemma {:induction false} ReadIsValid(t: seq<string>)
    ensures ReadConjunction(t).Some? ==> AllValid(ReadConjunction(t).value)
    decreases |t|
  {
    match ReadPrimitive(t)
    case None =>
    case Some((p, rest)) =>
      if rest != [] && rest[0] == "and" {
        ReadIsValid(rest[1..]);
      }
  }

  lemma ArgumentsReadBack(ps: seq<Primitive>, args: seq<string>)
    requires AllValid(ps)
    requires args == Split(DEFAULT_ARGUMENTS + " " + Join(Map(Text, ps), " and "), ' ')
    ensures args[0] == DEFAULT_ARGUMENTS && ReadFilter(args[1..]) == Some(ps)
  {
    SplitTexts(ps);
    SplitFirst(DEFAULT_ARGUMENTS, ' ', Join(Map(Text, ps), " and "));
    assert args[1..] == Tokens(ps);
    if ps != [] {
      ReadTokens(ps);
      FirstToken(ps);
    }
  }

  lemma FirstToken(ps: seq<Primitive>)
    requires ps != []
    ensures Tokens(ps)[0] != ""
  {
    assert Tokens(ps)[0] == Words(ps[0])[0];
  }

  /** The arguments passed to tcpdump read back as the primitives for the fields set, exactly if those are
      IPv4 addresses and port numbers. */
  lemma FilterReadsBack(s: Settings)
    ensures Split(FilterText(s), ' ')[0] == DEFAULT_ARGUMENTS
    ensures ReadFilter(Split(FilterText(s), ' ')[1..]) == Some(Primitives(s)) <==> ValidSettings(s)
  {
    var args := Split(FilterText(s), ' ');
    SplitFirst(DEFAULT_ARGUMENTS, ' ', Join(Map(Text, Primitives(s)), " and "));
    ValidPrimitives(s);
    ReadIsValid(args[1..]);
    if ValidSettings(s) {
      ArgumentsReadBack(Primitives(s), args);
    }
  }

  // ----- meaning

  datatype Packet = Packet(src: string, dst: string, srcPort: Option<string>, dstPort: Option<string>, tcp: bool)

  predicate Holds(p: Primitive, k: Packet) {
    match p
    case Src(a) => k.src == a
    case SrcPort(q) => k.srcPort == Some(q)
    case Dst(a) => k.dst == a
    case DstPort(q) => k.dstPort == Some(q)
    case Host(a) => k.src == a || k.dst == a
    case Port(q) => k.srcPort == Some(q) || k.dstPort == Some(q)
    case Tcp => k.tcp
  }

  predicate AllHold(ps: seq<Primitive>, k: Packet) {
    forall i :: 0 <= i < |ps| ==> Holds(ps[i], k)
  }

  /** Every configured constraint holds of the packet. */
  predicate Wanted(s: Settings, k: Packet) {
    && (s.srcIP != "" ==> k.src == s.srcIP)
    && (s.srcPort != "" ==> k.srcPort == Some(s.srcPort))
    && (s.dstIP != "" ==> k.dst == s.dstIP)
    && (s.dstPort != "" ==> k.dstPort == Some(s.dstPort))
    && (s.hostIP != "" ==> k.src == s.hostIP || k.dst == s.hostIP)
    && (s.hostPort != "" ==> k.srcPort == Some(s.hostPort) || k.dstPort == Some(s.hostPort))
    && (s.tcpOnly ==> k.tcp)
  }

  lemma AllHoldConcat(a: seq<Primitive>, b: seq<Primitive>, k: Packet)
    ensures AllHold(a + b, k) <==> AllHold(a, k) && AllHold(b, k)
  {
    if AllHold(a + b, k) {
      assert forall i :: 0 <= i < |a| ==> a[i] == (a + b)[i];
      assert forall i :: 0 <= i < |b| ==> b[i] == (a + b)[|a| + i];
    }
  }

  lemma AllHoldWhen(a: seq<Primitive>, condition: bool, p: Primitive, k: Packet)
    ensures AllHold(a + When(condition, p), k) <==> AllHold(a, k) && (condition ==> Holds(p, k))
  {
    AllHoldConcat(a, When(condition, p), k);
    assert AllHold([p], k) <==> Holds([p][0], k);
  }

  lemma PrimitivesMean(s: Settings, k: Packet)
    ensures AllHold(Primitives(s), k) <==> Wanted(s, k)
  {
    var p1 := [] + When(s.srcIP != "", Src(s.srcIP));
    var p2 := p1 + When(s.srcPort != "", SrcPort(s.srcPort));
    var p3 := p2 + When(s.dstIP != "", Dst(s.dstIP));
    var p4 := p3 + When(s.dstPort != "", DstPort(s.dstPort));
    var p5 := p4 + When(s.hostIP != "", Host(s.hostIP));
    var p6 := p5 + When(s.hostPort != "", Port(s.hostPort));
    AllHoldWhen([], s.srcIP != "", Src(s.srcIP), k);
    AllHoldWhen(p1, s.srcPort != "", SrcPort(s.srcPort), k);
    AllHoldWhen(p2, s.dstIP != "", Dst(s.dstIP), k);
    AllHoldWhen(p3, s.dstPort != "", DstPort(s.dstPort), k);
    AllHoldWhen(p4, s.hostIP != "", Host(s.hostIP), k);
    AllHoldWhen(p5, s.hostPort != "", Port(s.hostPort), k);
    AllHoldWhen(p6, s.tcpOnly, Tcp, k);
  }

  /** An address, or none. */
  predicate AddressOrNone(v: string) {
    v == "" || IsAddress(v)
  }

  predicate PortOrNone(v: string) {
    v == "" || IsPort(v)
  }

  /** From the configuration to the packets: what tcpdump is started with prints exactly the packets for
      which every address, port and flag the configuration gives holds. */
  lemma FilterMeaning(c: Config, src: string, srcPort: string, dst: string, dstPort: string,
                      host: string, hostPort: string, k: Packet)
    requires Endpoint(c.source, src, srcPort) && Endpoint(c.destination, dst, dstPort)
    requires Endpoint(c.host, host, hostPort)
    requires AddressOrNone(src) && AddressOrNone(dst) && AddressOrNone(host)
    requires PortOrNone(srcPort) && PortOrNone(dstPort) && PortOrNone(hostPort)
    ensures var launches := Launches(c, false);
      var argv := launches[|launches|-1];
      && |argv| >= 3 && argv[0] == "tcpdump" && argv[1] == "-nvvv" && ReadFilter(argv[2..]).Some?
      && (AllHold(ReadFilter(argv[2..]).value, k) <==>
            && (src != "" ==> k.src == src)
            && (srcPort != "" ==> k.srcPort == Some(srcPort))
            && (dst != "" ==> k.dst == dst)
            && (dstPort != "" ==> k.dstPort == Some(dstPort))
            && (host != "" ==> k.src == host || k.dst == host)
            && (hostPort != "" ==> k.srcPort == Some(hostPort) || k.dstPort == Some(hostPort))
            && (c.tcpOnly ==> k.tcp))
  {
    var s := Settings(src, srcPort, dst, dstPort, host, hostPort, c.pid, c.tcpOnly);
    EndpointsAreConfigured(c, s);
    CaptureArguments(c);
    SettingsMean(s, k);
  }

  lemma EndpointsAreConfigured(c: Config, s: Settings)
    requires Endpoint(c.source, s.srcIP, s.srcPort) && Endpoint(c.destination, s.dstIP, s.dstPort)
    requires Endpoint(c.host, s.hostIP, s.hostPort) && s.pid == c.pid && s.tcpOnly == c.tcpOnly
    ensures s == Configured(c)
  {
    EndpointIsParsed(c.source, s.srcIP, s.srcPort);
    EndpointIsParsed(c.destination, s.dstIP, s.dstPort);
    EndpointIsParsed(c.host, s.hostIP, s.hostPort);
  }

  lemma SettingsMean(s: Settings, k: Packet)
    requires ValidSettings(s)
    ensures var read := ReadFilter(Split(FilterText(s), ' ')[1..]);
      read.Some? && (AllHold(read.value, k) <==> Wanted(s, k))
  {
    FilterReadsBack(s);
    PrimitivesMean(s, k);
  }

  lemma CaptureArguments(c: Config)
    ensures var launches := Launches(c, false);
      var argv := launches[|launches|-1];
      |argv| >= 3 && argv[0] == "tcpdump" && argv[1] == "-nvvv"
      && argv[2..] == Split(FilterText(Configured(c)), ' ')[1..]
  {
    CommandOf(Join(Map(Text, Primitives(Configured(c))), " and "));
  }

  lemma CommandOf(filter: string)
    ensures var argv := Command(DEFAULT_ARGUMENTS + " " + filter);
      |argv| >= 3 && argv[0] == "tcpdump" && argv[1] == "-nvvv"
      && argv[2..] == Split(DEFAULT_ARGUMENTS + " " + filter, ' ')[1..]
  {
    SplitFirst(DEFAULT_ARGUMENTS, ' ', filter);
    AfterTwo("tcpdump", DEFAULT_ARGUMENTS, Split(filter, ' '));
  }

  lemma AfterTwo<T>(x: T, y: T, rest: seq<T>)
    ensures ([x] + ([y] + rest))[2..] == ([y] + rest)[1..]
  {
  }
}
