/** One session of the compilation proxy: requests read from a byte stream, and a
    response written for each. */
module ServerThread {
  import opened ProxyProtocol

  const INT_LIMIT := 0x8000_0000

  /** Bytes preceded by their number. */
  function Block(bytes: seq<byte>): seq<byte> {
    Bytes(|bytes|, 4) + bytes
  }

  datatype Request = Request(id: int, options: seq<byte>, program: seq<byte>) {
    /** The sizes fit an int, the identifier a long, and it is not the one that
        asks the server to stop. */
    predicate Valid() {
      InRange(id, 8) && id != -1 && |options| < INT_LIMIT && |program| < INT_LIMIT
    }

    function Encode(): seq<byte> {
      Bytes(id, 8) + (Block(options) + Block(program))
    }
  }

  /** What the compiler makes of a request: its result, the two outputs and the binary. */
  datatype Compiled = Compiled(result: int, out: seq<byte>, err: seq<byte>, binary: seq<byte>) {
    predicate Valid() {
      InRange(result, 4) && |out| < INT_LIMIT && |err| < INT_LIMIT && |binary| < INT_LIMIT
    }
  }

  type Outcome = c: Compiled | c.Valid() witness Compiled(0, [], [], [])

  /** A compilation is completed, or its binary cannot be read although it succeeded, or
      it fails before there is a result: a file cannot be written or the thread is
      interrupted. */
  datatype Attempt = Completed(c: Outcome) | NoBinary(c: Outcome) | Failed

  /** The compiler, given the number of the request, its options and program. */
  type Compiler = (nat, seq<byte>, seq<byte>) -> Attempt

  datatype Response = Response(id: int, result: int, out: seq<byte>, err: seq<byte>, binary: seq<byte>) {
    predicate Valid() {
      InRange(id, 8) && InRange(result, 4) && |out| < INT_LIMIT && |err| < INT_LIMIT && |binary| < INT_LIMIT
    }

    function Encode(): seq<byte> {
      Bytes(id, 8) + (Bytes(result, 4) + (Block(out) + (Block(err) + Block(binary))))
    }
  }

  function Compile(compiler: Compiler, k: nat, r: Request): Attempt {
    compiler(k, r.options, r.program)
  }

  /** The binary is sent only when the compilation succeeded.  Its size is sent before it
      is read: when it cannot be read the size is 0. */
  function Answer(a: Attempt, id: int): Response
    requires !a.Failed?
  {
    match a
    case Completed(c) => Response(id, c.result, c.out, c.err, if c.result == 0 then c.binary else [])
    case NoBinary(c) => Response(id, 0, c.out, c.err, [])
  }

  // ---------------------------------------------------------------------
  // Reading one request
  // ---------------------------------------------------------------------

  datatype Parsed = Complete(request: Request, rest: seq<byte>) | Shutdown | EndOfStream | Broken

  function ParseProgram(id: int, options: seq<byte>, s: seq<byte>): Parsed {
    var size := TakeNumber(s, 4);
    if !size.Took? then Broken
    else
      var program := TakeBytes(size.rest, size.value);
      if program.Took? then Complete(Request(id, options, program.value), program.rest) else Broken
  }

  /** A negative option size has no buffer; a negative program size is an empty program. */
  function ParseOptions(id: int, s: seq<byte>): Parsed {
    var size := TakeNumber(s, 4);
    if !size.Took? || size.value < 0 then Broken
    else
      var options := TakeBytes(size.rest, size.value);
      if options.Took? then ParseProgram(id, options.value, options.rest) else Broken
  }

  function ParseRequest(s: seq<byte>): (p: Parsed)
    ensures p.Complete? ==> |p.rest| < |s|
  {
    match TakeNumber(s, 8)
    case Ended => EndOfStream
    case Cut => Broken
    case Took(id, rest) => if id == -1 then Shutdown else ParseOptions(id, rest)
  }

  // ---------------------------------------------------------------------
  // The session
  // ---------------------------------------------------------------------

  datatype Session = Session(output: seq<byte>, errorCode: int)

  function Serve(compiler: Compiler, k: nat, s: seq<byte>): Session
    decreases |s|
  {
    match ParseRequest(s)
    case Complete(r, rest) =>
      var a := Compile(compiler, k, r);
      if a.Failed? then Session([], 1)
      else if a.NoBinary? then Session(Answer(a, r.id).Encode(), 1)
      else
        var later := Serve(compiler, k + 1, rest);
        Session(Answer(a, r.id).Encode() + later.output, later.errorCode)
    case Shutdown => Session([], 0)
    case EndOfStream => Session([], 0)
    case Broken => Session([], 1)
  }

  method ReadRequest(input: InputStream) returns (p: Parsed)
    modifies input
    ensures p == ParseRequest(old(input.rest))
    ensures p.Complete? ==> input.rest == p.rest
  {
    var requestID := ReadNumber(input, 8);
    match requestID {
      case Ended => return EndOfStream;
      case Cut => return Broken;
      case Took(id, _) =>
        if id == -1 {
          return Shutdown;
        }
        var optionSize := ReadNumber(input, 4);
        if !optionSize.Took? || optionSize.value < 0 {
          return Broken;
        }
        var options := ReadBytes(input, optionSize.value);
        if !options.Took? {
          return Broken;
        }
        var programSize := ReadNumber(input, 4);
        if !programSize.Took? {
          return Broken;
        }
        var program := ReadBytes(input, programSize.value);
        if !program.Took? {
          return Broken;
        }
        p := Complete(Request(id, options.value, program.value), program.rest);
    }
  }

  method WriteBlock(output: OutputStream, bytes: seq<byte>)
    modifies output
    ensures output.data == old(output.data) + Block(bytes)
  {
    WriteNumber(output, |bytes|, 4);
    WriteBytes(output, bytes);
  }

  lemma Regroup(a: seq<byte>, b: seq<byte>, c: seq<byte>)
    ensures (a + b) + c == a + (b + c)
  {
  }

  method WriteResponse(output: OutputStream, r: Response)
    modifies output
    ensures output.data == old(output.data) + r.Encode()
  {
    hide Block, Bytes;
    ghost var s := output.data;
    WriteNumber(output, r.id, 8);
    WriteNumber(output, r.result, 4);
    WriteBlock(output, r.out);
    WriteBlock(output, r.err);
    WriteBlock(output, r.binary);
    ghost var id, result, out, err, bin := Bytes(r.id, 8), Bytes(r.result, 4), Block(r.out), Block(r.err), Block(r.binary);
    Regroup(s + id + result + out, err, bin);
    Regroup(s + id + result, out, err + bin);
    Regroup(s + id, result, out + (err + bin));
    Regroup(s, id, result + (out + (err + bin)));
  }

  lemma ServeStep(compiler: Compiler, k: nat, s: seq<byte>)
    ensures match ParseRequest(s)
            case Complete(r, rest) =>
              var a, end := Compile(compiler, k, r), Serve(compiler, k + 1, rest);
              && (a.Failed? ==> Serve(compiler, k, s) == Session([], 1))
              && (a.NoBinary? ==> Serve(compiler, k, s) == Session(Answer(a, r.id).Encode(), 1))
              && (a.Completed? ==>
                    Serve(compiler, k, s) == Session(Answer(a, r.id).Encode() + end.output, end.errorCode))
            case Broken => Serve(compiler, k, s) == Session([], 1)
            case _ => Serve(compiler, k, s) == Session([], 0)
  {
  }

  /** The loop of the server thread; `k` is the value of the request counter. */
  method Run(compiler: Compiler, input: InputStream, output: OutputStream, k: nat) returns (errorCode: int)
    modifies input, output
    ensures output.data == old(output.data) + Serve(compiler, k, old(input.rest)).output
    ensures errorCode == Serve(compiler, k, old(input.rest)).errorCode
  {
    hide Serve, ParseRequest, Answer, Response.Encode;
    var counter := k;
    ghost var start, whole := output.data, Serve(compiler, k, input.rest);
    while true
      invariant start + whole.output == output.data + Serve(compiler, counter, input.rest).output
      invariant whole.errorCode == Serve(compiler, counter, input.rest).errorCode
      decreases |input.rest|
    {
      ghost var sent := output.data;
      ServeStep(compiler, counter, input.rest);
      var p := ReadRequest(input);
      match p {
        case Shutdown => return 0;
        case EndOfStream => return 0;
        case Broken => return 1;
        case Complete(r, rest) =>
          var attempt := Compile(compiler, counter, r);
          if attempt.Failed? {
            return 1;
          }
          var answer := Answer(attempt, r.id);
          WriteResponse(output, answer);
          if attempt.NoBinary? {
            return 1;
          }
          counter := counter + 1;
          Regroup(sent, answer.Encode(), Serve(compiler, counter, rest).output);
      }
    }
  }

  // ---------------------------------------------------------------------
  // What a client can rely on
  // ---------------------------------------------------------------------

  function EncodeRequests(rs: seq<Request>): seq<byte> {
    if rs == [] then [] else rs[0].Encode() + EncodeRequests(rs[1..])
  }

  function EncodeResponses(rs: seq<Response>): seq<byte> {
    if rs == [] then [] else rs[0].Encode() + EncodeResponses(rs[1..])
  }

  /** The answers to requests, in order, up to the first compilation that is not
      completed. */
  function Answers(compiler: Compiler, k: nat, rs: seq<Request>): (a: seq<Response>)
    ensures |a| <= |rs| && forall i | 0 <= i < |a| :: a[i].id == rs[i].id
    decreases |rs|
  {
    if rs == [] then []
    else
      var a := Compile(compiler, k, rs[0]);
      if a.Failed? then []
      else if a.NoBinary? then [Answer(a, rs[0].id)]
      else [Answer(a, rs[0].id)] + Answers(compiler, k + 1, rs[1..])
  }

  predicate AllCompleted(compiler: Compiler, k: nat, rs: seq<Request>) {
    forall i | 0 <= i < |rs| :: Compile(compiler, k + i, rs[i]).Completed?
  }

  /** When all compilations are completed there is one answer for each request. */
  lemma {:induction false} OneAnswerEach(compiler: Compiler, k: nat, rs: seq<Request>)
    requires AllCompleted(compiler, k, rs)
    ensures var a := Answers(compiler, k, rs);
            |a| == |rs| && forall i | 0 <= i < |rs| :: a[i] == Answer(Compile(compiler, k + i, rs[i]), rs[i].id)
    decreases |rs|
  {
    if rs != [] {
      CompletedStep(compiler, k, rs);
      OneAnswerEach(compiler, k + 1, rs[1..]);
    }
  }

  /** Field by field: the outputs of the compilation each in its place, its result, and its
      binary when it succeeded and the binary can be read, else no bytes. */
  lemma AnswersHold(compiler: Compiler, k: nat, rs: seq<Request>, i: nat)
    requires AllCompleted(compiler, k, rs) && i < |rs|
    ensures var a, c := Answers(compiler, k, rs), Compile(compiler, k + i, rs[i]).c;
            && |a| == |rs|
            && a[i].id == rs[i].id && a[i].result == c.result && a[i].out == c.out && a[i].err == c.err
            && (c.result == 0 ==> a[i].binary == c.binary)
            && (c.result != 0 ==> a[i].binary == [])
  {
    OneAnswerEach(compiler, k, rs);
    assert Compile(compiler, k + i, rs[i]).Completed?;
  }

  /** When a binary cannot be read, the last answer is of success without a binary. */
  lemma {:induction false} LastAnswerHasNoBinary(compiler: Compiler, k: nat, rs: seq<Request>, i: nat)
    requires i < |rs| && AllCompleted(compiler, k, rs[..i])
    requires Compile(compiler, k + i, rs[i]).NoBinary?
    ensures var a, c := Answers(compiler, k, rs), Compile(compiler, k + i, rs[i]).c;
            |a| == i + 1 && a[i] == Response(rs[i].id, 0, c.out, c.err, [])
    decreases |rs|
  {
    if i > 0 {
      CompletedStep(compiler, k, rs[..i]);
      assert rs[..i][0] == rs[0] && rs[..i][1..] == rs[1..][..i - 1];
      LastAnswerHasNoBinary(compiler, k + 1, rs[1..], i - 1);
    }
  }

  lemma CompletedStep(compiler: Compiler, k: nat, rs: seq<Request>)
    requires rs != []
    ensures AllCompleted(compiler, k, rs) <==>
            Compile(compiler, k, rs[0]).Completed? && AllCompleted(compiler, k + 1, rs[1..])
  {
    if Compile(compiler, k, rs[0]).Completed? && AllCompleted(compiler, k + 1, rs[1..]) {
      forall i | 0 <= i < |rs| ensures Compile(compiler, k + i, rs[i]).Completed? {
        assert i > 0 ==> Compile(compiler, (k + 1) + (i - 1), rs[1..][i - 1]).Completed?;
      }
    }
    if AllCompleted(compiler, k, rs) {
      assert Compile(compiler, k + 0, rs[0]).Completed?;
      forall i | 0 <= i < |rs| - 1 ensures Compile(compiler, k + 1 + i, rs[1..][i]).Completed? {
        assert Compile(compiler, k + (i + 1), rs[i + 1]).Completed?;
      }
    }
  }

  /** The complete requests at the start of an input. */
  function Requests(s: seq<byte>): seq<Request>
    decreases |s|
  {
    match ParseRequest(s)
    case Complete(r, rest) => [r] + Requests(rest)
    case _ => []
  }

  /** What follows the complete requests. */
  function EndOf(s: seq<byte>): (p: Parsed)
    ensures !p.Complete?
    decreases |s|
  {
    match ParseRequest(s)
    case Complete(_, rest) => EndOf(rest)
    case end => end
  }

  /** Whatever the input, the server answers its complete requests, in order, until a
      compilation is not completed.  The error code is 1 exactly when one is not, or when
      the input ends inside a request or gives a negative size of options. */
  lemma {:induction false} ServesEveryInput(compiler: Compiler, k: nat, s: seq<byte>)
    ensures Serve(compiler, k, s) ==
            Session(EncodeResponses(Answers(compiler, k, Requests(s))),
                    if EndOf(s) == Broken || !AllCompleted(compiler, k, Requests(s)) then 1 else 0)
    decreases |s|
  {
    hide ParseRequest, Answer, Response.Encode;
    ServeStep(compiler, k, s);
    if ParseRequest(s).Complete? {
      var r, rest := ParseRequest(s).request, ParseRequest(s).rest;
      ServeComplete(compiler, k, s, r, rest);
    }
  }

  lemma {:induction false} ServeComplete(compiler: Compiler, k: nat, s: seq<byte>, r: Request, rest: seq<byte>)
    requires ParseRequest(s) == Complete(r, rest)
    ensures Serve(compiler, k, s) ==
            Session(EncodeResponses(Answers(compiler, k, Requests(s))),
                    if EndOf(s) == Broken || !AllCompleted(compiler, k, Requests(s)) then 1 else 0)
    decreases |s|, 0
  {
    hide Answer, Response.Encode, AllCompleted;
    var rs, a := Requests(s), Compile(compiler, k, r);
    assert rs == [r] + Requests(rest) && rs[1..] == Requests(rest);
    CompletedStep(compiler, k, rs);
    ServeStep(compiler, k, s);
    ServesEveryInput(compiler, k + 1, rest);
    if !a.Failed? {
      EncodeFirst(Answer(a, r.id), if a.NoBinary? then [] else Answers(compiler, k + 1, Requests(rest)));
    }
  }

  lemma EncodeFirst(r: Response, others: seq<Response>)
    ensures EncodeResponses([r] + others) == r.Encode() + EncodeResponses(others)
    ensures EncodeResponses([r]) == r.Encode()
  {
    hide Response.Encode;
    assert ([r] + others)[1..] == others && [r][1..] == [];
    assert r.Encode() + [] == r.Encode();
  }

  lemma IntSizeInRange(n: nat)
    requires n < INT_LIMIT
    ensures InRange(n, 4)
  {
    assert Pow256(1) == 0x100;
    assert Pow256(2) == 0x1_0000;
    assert Pow256(3) == 0x100_0000;
    assert Pow256(4) == 0x1_0000_0000;
  }

  lemma ParseEncoded(r: Request, rest: seq<byte>)
    requires r.Valid()
    ensures ParseRequest(r.Encode() + rest) == Complete(r, rest)
  {
    var options, program := Block(r.options), Block(r.program);
    var s := options + (program + rest);
    assert r.Encode() + rest == Bytes(r.id, 8) + s;
    TakeWrittenNumber(r.id, 8, s);
    TakeWrittenBlock(r.options, program + rest);
    TakeWrittenBlock(r.program, rest);
  }

  /** A block at the start of a sequence is read back. */
  lemma TakeWrittenBlock(bytes: seq<byte>, rest: seq<byte>)
    requires |bytes| < INT_LIMIT
    ensures TakeNumber(Block(bytes) + rest, 4) == Took(|bytes|, bytes + rest)
    ensures TakeBytes(bytes + rest, |bytes|) == Took(bytes, rest)
  {
    IntSizeInRange(|bytes|);
    Regroup(Bytes(|bytes|, 4), bytes, rest);
    TakeWrittenNumber(|bytes|, 4, bytes + rest);
    TakeWrittenBytes(bytes, rest);
  }

  /** A request cut anywhere but at its two ends is not answered. */
  lemma ParsePrefix(r: Request, n: nat)
    requires r.Valid() && 0 < n < |r.Encode()|
    ensures ParseRequest(r.Encode()[..n]) == Broken
  {
    var s := Block(r.options) + Block(r.program);
    if n >= 8 {
      CutAfter(Bytes(r.id, 8), s, n);
      TakeWrittenNumber(r.id, 8, s[..n - 8]);
      CutOptions(r, n - 8);
    }
  }

  lemma CutAfter(a: seq<byte>, b: seq<byte>, n: nat)
    requires |a| <= n <= |a| + |b|
    ensures (a + b)[..n] == a + b[..n - |a|]
  {
  }

  lemma CutOptions(r: Request, n: nat)
    requires r.Valid() && n < |Block(r.options) + Block(r.program)|
    ensures ParseOptions(r.id, (Block(r.options) + Block(r.program))[..n]) == Broken
  {
    var options, program := Block(r.options), Block(r.program);
    var s := (options + program)[..n];
    if n >= |options| {
      CutAfter(options, program, n);
      TakeWrittenBlock(r.options, program[..n - |options|]);
      CutProgram(r, n - |options|);
    } else {
      assert s == options[..n];
      CutBlock(r.options, n);
    }
  }

  /** A block cut short gives no bytes. */
  lemma CutBlock(bytes: seq<byte>, n: nat)
    requires |bytes| < INT_LIMIT && n < |Block(bytes)|
    ensures var size := TakeNumber(Block(bytes)[..n], 4);
            size.Took? ==> size.value == |bytes| && !TakeBytes(size.rest, size.value).Took?
  {
    if n >= 4 {
      IntSizeInRange(|bytes|);
      CutAfter(Bytes(|bytes|, 4), bytes, n);
      TakeWrittenNumber(|bytes|, 4, bytes[..n - 4]);
    }
  }

  lemma CutProgram(r: Request, n: nat)
    requires r.Valid() && n < |Block(r.program)|
    ensures ParseProgram(r.id, r.options, Block(r.program)[..n]) == Broken
  {
    CutBlock(r.program, n);
  }

  /** How an input may go on after the complete requests: it closes, it asks to stop, it
      is cut inside a request, or it gives a negative size of options. */
  datatype Ending =
    | Closes
    | Stops(ignored: seq<byte>)
    | Breaks(r: Request, n: nat)
    | Refuses(id: int, size: int, ignored: seq<byte>)
  {
    predicate Fails() { Breaks? || Refuses? }
  }

  predicate ValidEnding(e: Ending) {
    match e
    case Breaks(r, n) => r.Valid() && 0 < n < |r.Encode()|
    case Refuses(id, size, _) => InRange(id, 8) && id != -1 && InRange(size, 4) && size < 0
    case _ => true
  }

  function Tail(e: Ending): seq<byte>
    requires ValidEnding(e)
  {
    match e
    case Closes => []
    case Stops(ignored) => Bytes(-1, 8) + ignored
    case Breaks(r, n) => r.Encode()[..n]
    case Refuses(id, size, ignored) => Bytes(id, 8) + (Bytes(size, 4) + ignored)
  }

  lemma MinusOneFits()
    ensures InRange(-1, 8)
  {
    assert Pow256(8) == 0x100 * Pow256(7);
  }

  lemma EndingParsed(e: Ending)
    requires ValidEnding(e)
    ensures var p := ParseRequest(Tail(e));
            !p.Complete? && (p == Broken <==> e.Fails())
  {
    match e
    case Closes =>
    case Stops(ignored) =>
      MinusOneFits();
      TakeWrittenNumber(-1, 8, ignored);
    case Breaks(r, n) => ParsePrefix(r, n);
    case Refuses(id, size, ignored) =>
      TakeWrittenNumber(id, 8, Bytes(size, 4) + ignored);
      TakeWrittenNumber(size, 4, ignored);
  }

  /** The requests written by a client are those the server reads. */
  lemma {:induction false} RequestsOfEncoded(rs: seq<Request>, e: Ending)
    requires (forall r <- rs :: r.Valid()) && ValidEnding(e)
    ensures var s := EncodeRequests(rs) + Tail(e);
            Requests(s) == rs && (EndOf(s) == Broken <==> e.Fails())
    decreases |rs|
  {
    hide ParseRequest, Request.Encode, Tail;
    if rs == [] {
      assert EncodeRequests(rs) + Tail(e) == Tail(e);
      EndingParsed(e);
    } else {
      var others := EncodeRequests(rs[1..]);
      Regroup(rs[0].Encode(), others, Tail(e));
      ParseEncoded(rs[0], others + Tail(e));
      RequestsOfEncoded(rs[1..], e);
      assert rs == [rs[0]] + rs[1..];
    }
  }

  /** For the requests a client writes, however the input goes on: the server answers
      them in order until a compilation is not completed, and ends with error code 1
      exactly when one is not or the ending fails. */
  lemma SessionAnswersCompleteRequests(compiler: Compiler, k: nat, rs: seq<Request>, e: Ending)
    requires (forall r <- rs :: r.Valid()) && ValidEnding(e)
    ensures Serve(compiler, k, EncodeRequests(rs) + Tail(e))
         == Session(EncodeResponses(Answers(compiler, k, rs)),
                    if e.Fails() || !AllCompleted(compiler, k, rs) then 1 else 0)
  {
    RequestsOfEncoded(rs, e);
    ServesEveryInput(compiler, k, EncodeRequests(rs) + Tail(e));
  }

  // ---------------------------------------------------------------------
  // Decoding the responses
  // ---------------------------------------------------------------------

  /** A block preceded by its size. */
  function TakeBlock(s: seq<byte>): Take<seq<byte>> {
    var size := TakeNumber(s, 4);
    if size.Took? then TakeBytes(size.rest, size.value) else Cut
  }

  /** Reads one response with the same primitives. */
  function ParseResponse(s: seq<byte>): Take<Response> {
    var id := TakeNumber(s, 8);
    if !id.Took? then Cut else
    var result := TakeNumber(id.rest, 4);
    if !result.Took? then Cut else
    var out := TakeBlock(result.rest);
    if !out.Took? then Cut else
    var err := TakeBlock(out.rest);
    if !err.Took? then Cut else
    var binary := TakeBlock(err.rest);
    if !binary.Took? then Cut else
    Took(Response(id.value, result.value, out.value, err.value, binary.value), binary.rest)
  }

  lemma ParseWrittenResponse(r: Response, rest: seq<byte>)
    requires r.Valid()
    ensures ParseResponse(r.Encode() + rest) == Took(r, rest)
  {
    var s3 := Block(r.binary) + rest;
    var s2 := Block(r.err) + s3;
    var s1 := Block(r.out) + s2;
    assert r.Encode() + rest == Bytes(r.id, 8) + (Bytes(r.result, 4) + s1);
    TakeWrittenNumber(r.id, 8, Bytes(r.result, 4) + s1);
    TakeWrittenNumber(r.result, 4, s1);
    TakeWrittenBlock(r.out, s2);
    TakeWrittenBlock(r.err, s3);
    TakeWrittenBlock(r.binary, rest);
  }

  /** n responses read from the stream, or None. */
  function ParseResponses(s: seq<byte>, n: nat): Take<seq<Response>>
    decreases n
  {
    if n == 0 then Took([], s)
    else
      var first := ParseResponse(s);
      if !first.Took? then Cut
      else
        var others := ParseResponses(first.rest, n - 1);
        if others.Took? then Took([first.value] + others.value, others.rest) else Cut
  }

  lemma {:induction false} ResponsesDecode(rs: seq<Response>)
    requires forall r <- rs :: r.Valid()
    ensures ParseResponses(EncodeResponses(rs), |rs|) == Took(rs, [])
    decreases |rs|
  {
    if rs != [] {
      ParseWrittenResponse(rs[0], EncodeResponses(rs[1..]));
      ResponsesDecode(rs[1..]);
      assert [rs[0]] + rs[1..] == rs;
    }
  }

  lemma {:induction false} AnswersValid(compiler: Compiler, k: nat, rs: seq<Request>)
    requires forall r <- rs :: r.Valid()
    ensures forall a <- Answers(compiler, k, rs) :: a.Valid()
    decreases |rs|
  {
    if rs != [] {
      AnswersValid(compiler, k + 1, rs[1..]);
      var a := Compile(compiler, k, rs[0]);
      if !a.Failed? {
        AnswerValid(a, rs[0]);
      }
    }
  }

  lemma AnswerValid(a: Attempt, r: Request)
    requires !a.Failed? && r.Valid()
    ensures Answer(a, r.id).Valid()
  {
    var c: Outcome := a.c;
    assert c.Valid();
    IntSizeInRange(0);
  }

  /** The numbers and sizes read from any input fit. */
  lemma {:induction false} RequestsValid(s: seq<byte>)
    ensures forall r <- Requests(s) :: r.Valid()
    decreases |s|
  {
    if ParseRequest(s).Complete? {
      ParsedValid(s);
      RequestsValid(ParseRequest(s).rest);
    }
  }

  lemma DecodedFits(s: seq<byte>)
    ensures InRange(Decode(s), |s|)
    ensures |s| == 4 ==> Decode(s) < INT_LIMIT
  {
    assert Pow256(1) == 0x100;
    assert Pow256(2) == 0x1_0000;
    assert Pow256(3) == 0x100_0000;
    assert Pow256(4) == 0x1_0000_0000;
  }

  lemma ParsedValid(s: seq<byte>)
    requires ParseRequest(s).Complete?
    ensures ParseRequest(s).request.Valid()
  {
    DecodedFits(s[..8]);
    var afterId := s[8..];
    DecodedFits(afterId[..4]);
    var options := TakeBytes(afterId[4..], Decode(afterId[..4]));
    DecodedFits(options.rest[..4]);
  }

  /** Whatever the input, what the server writes decodes to its answers, each with the
      identifier of its request. */
  lemma ClientReadsAnswers(compiler: Compiler, k: nat, s: seq<byte>)
    ensures var output, answers := Serve(compiler, k, s).output, Answers(compiler, k, Requests(s));
            && ParseResponses(output, |answers|) == Took(answers, [])
            && forall i | 0 <= i < |answers| :: answers[i].id == Requests(s)[i].id
  {
    ServesEveryInput(compiler, k, s);
    RequestsValid(s);
    AnswersValid(compiler, k, Requests(s));
    ResponsesDecode(Answers(compiler, k, Requests(s)));
  }
}
