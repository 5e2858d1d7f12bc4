/** What the server does with well-formed messages: framing, pairing of responses, and the file state. */
module CopyFraming {

  import opened Wire
  import opened BlockingReader
  import opened CopyServer

  predicate AtHead(r: Reader<Srv>) { r.state.at == InHeader && r.got == [] }

  predicate Halted(r: Reader<Srv>) { r.state.at == Stopped && r.got == [] }

  /** The effect of one well-formed message on the state. */
  function HandleCommand(os: Oracle, s: Srv, c: Command, id: nat): Srv {
    var hdr := HeaderOf(c, id);
    match c
    case Open(path, _) =>
      var status := StatusOf(os, s, c);
      if status == 0 then
        var f := s.files.(fd := os(s.pass).openFd, target := path, disk := s.files.disk[path := []]);
        Succeed(s.(files := f), hdr)
      else
        Refuse(if PathRead(os, s) then s.(files := s.files.(fd := -1)) else s, hdr, status)
    case Write(file) => if s.files.fd <= 0 then Refuse(s, hdr, EINVAL) else HandleFile(os, s, hdr, file)
    case Close => Succeed(s.(files := CloseFiles(s.files)), hdr)
  }

  /** The path of an OPEN is read only by a closed server with memory for it. */
  predicate PathRead(os: Oracle, s: Srv) { s.files.Closed() && os(s.pass).mallocOk }

  /** The size and the payload of a WRITE, with an open file. */
  function HandleFile(os: Oracle, s: Srv, hdr: Header, file: seq<byte>): Srv {
    var answer := os(s.pass);
    var sized := s.files.(bytes := |file|);
    if !answer.truncateOk then Refuse(s.(files := sized), hdr, MINUS_ONE)
    else if !answer.mmapOk then
      var resized := sized.(disk := sized.disk[sized.target := Resize(Contents(sized), |file|)]);
      Refuse(s.(files := resized.(mapping := MapFailed)), hdr, answer.error)
    else
      Succeed(s.(files := sized.(mapping := Mapped, disk := sized.disk[sized.target := file])), hdr)
  }

  /** The status of the response to a well-formed message. */
  function StatusOf(os: Oracle, s: Srv, c: Command): nat {
    match c
    case Open(_, _) =>
      if !s.files.mapping.Unmapped? || s.files.fd > 0 then EBUSY
      else if !os(s.pass).mallocOk then ENOMEM
      else if os(s.pass).openFd < 0 then os(s.pass).error
      else 0
    case Write(_) =>
      if s.files.fd <= 0 then EINVAL
      else if !os(s.pass).truncateOk then MINUS_ONE
      else if !os(s.pass).mmapOk then os(s.pass).error
      else 0
    case Close => 0
  }

  function ResponseTo(c: Command, id: nat, status: nat): Header { Response(HeaderOf(c, id), status) }

  lemma Associative(a: seq<byte>, b: seq<byte>, c: seq<byte>)
    ensures a + b + c == a + (b + c)
  {
  }

  lemma FeedHeader(os: Oracle, r: Reader<Srv>, h: Header, rest: seq<byte>)
    requires Ok(r.state) && AtHead(r) && h.Fits()
    ensures var r1 := Reader(OnHeader(os, r.state, h), [], r.used + HEADER);
            && Sound(ServerOf(os), r1)
            && Feed(ServerOf(os), r, EncodeHeader(h) + rest) == Feed(ServerOf(os), r1, rest)
  {
    FeedBlock(ServerOf(os), r, EncodeHeader(h), rest);
    HeaderRoundTrip(h);
  }

  lemma FeedOpenBody(os: Oracle, r: Reader<Srv>, c: Command, hdr: Header)
    requires Ok(r.state) && AtHead(r) && c.Open? && c.WellFormed()
    requires hdr.version == 0 && hdr.command == CMD_OPEN && hdr.len == HEADER + |PaddedPath(c.path)|
    ensures var r1 := Reader(OnHeader(os, r.state, hdr), [], r.used + HEADER);
            var r' := Feed(ServerOf(os), r1, PaddedPath(c.path));
            && Sound(ServerOf(os), r1) && r'.got == []
            && r'.state == (if r1.state.at == Stopped then r1.state
                            else OnPath(os, r.state, hdr, PaddedPath(c.path)))
            && (r'.state.at != Stopped ==> r'.used == r.used + HEADER + |PaddedPath(c.path)|)
  {
    PathRoundTrip(c.path);
    var body, r1 := PaddedPath(c.path), Reader(OnHeader(os, r.state, hdr), [], r.used + HEADER);
    if r1.state.at == Stopped {
      FeedNothing(ServerOf(os), r1, body);
    } else {
      assert body + [] == body;
      FeedBlock(ServerOf(os), r1, body, []);
      FeedNothing(ServerOf(os), Reader(OnPath(os, r1.state, hdr, body), [], r1.used + |body|), []);
    }
  }

  lemma HandleOpen(os: Oracle, s: Srv, c: Command, id: nat)
    requires Ok(s) && s.at == InHeader && c.Open? && c.WellFormed()
    ensures var hdr := HeaderOf(c, id);
            var s1 := OnHeader(os, s, hdr);
            HandleCommand(os, s, c, id)
            == if s1.at == Stopped then s1 else OnPath(os, s, hdr, PaddedPath(c.path))
  {
    MessageFits(c, 0);
    PathRoundTrip(c.path);
  }

  lemma FeedOpen(os: Oracle, r: Reader<Srv>, c: Command, id: nat)
    requires Ok(r.state) && AtHead(r) && c.Open? && c.WellFormed() && id < 0x1_0000_0000_0000_0000
    ensures var r' := Feed(ServerOf(os), r, MessageOf(c, id));
            && r'.state == HandleCommand(os, r.state, c, id) && r'.got == []
            && (r'.state.at != Stopped ==> r'.used == r.used + |MessageOf(c, id)|)
  {
    MessageFits(c, id);
    FeedHeader(os, r, HeaderOf(c, id), PaddedPath(c.path));
    FeedOpenBody(os, r, c, HeaderOf(c, id));
    HandleOpen(os, r.state, c, id);
  }

  lemma FeedSize(os: Oracle, r: Reader<Srv>, hdr: Header, size: nat, rest: seq<byte>)
    requires r.state.at == InSize(hdr) && r.got == [] && 0 < size < 0x1_0000_0000_0000_0000
    ensures var s1 := MapFile(os, r.state.(files := r.state.files.(bytes := size)), hdr);
            var r1 := Reader(s1, [], r.used + SIZE_FIELD);
            && Sound(ServerOf(os), r) && Sound(ServerOf(os), r1)
            && Feed(ServerOf(os), r, LeBytes(SIZE_FIELD, size) + rest) == Feed(ServerOf(os), r1, rest)
  {
    Widths();
    LeRoundTrip(SIZE_FIELD, size);
    FeedBlock(ServerOf(os), r, LeBytes(SIZE_FIELD, size), rest);
  }

  /** With the size read, the file is mapped for the payload, or the WRITE is refused for good. */
  lemma MapOrRefuse(os: Oracle, s: Srv, hdr: Header, file: seq<byte>)
    requires s.at == InSize(hdr) && |file| > 0
    ensures var m := MapFile(os, s.(files := s.files.(bytes := |file|)), hdr);
            var f := m.files;
            if m.at == Stopped then m == HandleFile(os, s, hdr, file)
            else
              && m.at == InPayload(hdr) && |Contents(f)| == |file| == f.bytes
              && Succeed(m.(files := f.(disk := f.disk[f.target := file])), hdr) == HandleFile(os, s, hdr, file)
  {
    var f := s.files;
    assert f.disk[f.target := Resize(Contents(f), |file|)][f.target := file] == f.disk[f.target := file];
  }

  lemma FeedFile(os: Oracle, r: Reader<Srv>, hdr: Header, file: seq<byte>)
    requires Ok(r.state) && r.state.at == InSize(hdr) && r.got == []
    requires 0 < |file| < 0x1_0000_0000_0000_0000
    ensures Sound(ServerOf(os), r)
    ensures var r' := Feed(ServerOf(os), r, LeBytes(SIZE_FIELD, |file|) + file);
            && r'.state == HandleFile(os, r.state, hdr, file) && r'.got == []
            && (r'.state.at != Stopped ==> r'.used == r.used + SIZE_FIELD + |file|)
  {
    var s1 := MapFile(os, r.state.(files := r.state.files.(bytes := |file|)), hdr);
    var r1 := Reader(s1, [], r.used + SIZE_FIELD);
    FeedSize(os, r, hdr, |file|, file);
    MapOrRefuse(os, r.state, hdr, file);
    if s1.at == Stopped {
      FeedNothing(ServerOf(os), r1, file);
    } else {
      FeedPayload(os, r1, hdr, file);
    }
  }

  lemma FeedPayload(os: Oracle, r: Reader<Srv>, hdr: Header, file: seq<byte>)
    requires r.state.at == InPayload(hdr) && r.got == [] && |file| == r.state.files.bytes > 0
    requires |Contents(r.state.files)| == |file|
    ensures Sound(ServerOf(os), r)
    ensures var f := r.state.files;
            Feed(ServerOf(os), r, file)
            == Reader(Succeed(r.state.(files := f.(disk := f.disk[f.target := file])), hdr), [], r.used + |file|)
  {
    assert file + [] == file;
    FeedBlock(ServerOf(os), r, file, []);
    FeedNothing(ServerOf(os), Reader(Finish(os, r.state, file), [], r.used + |file|), []);
    assert Contents(r.state.files)[|file|..] == [];
  }

  lemma FeedWriteBody(os: Oracle, r: Reader<Srv>, c: Command, hdr: Header)
    requires Ok(r.state) && AtHead(r) && c.Write? && c.WellFormed()
    requires hdr.version == 0 && hdr.command == CMD_WRITE && hdr.len == HEADER + SIZE_FIELD
    ensures var r1 := Reader(OnHeader(os, r.state, hdr), [], r.used + HEADER);
            var r' := Feed(ServerOf(os), r1, LeBytes(SIZE_FIELD, |c.file|) + c.file);
            && Sound(ServerOf(os), r1) && r'.got == []
            && r'.state == (if r.state.files.fd <= 0 then Refuse(r.state, hdr, EINVAL)
                            else HandleFile(os, r.state, hdr, c.file))
            && (r'.state.at != Stopped ==> r'.used == r.used + HEADER + SIZE_FIELD + |c.file|)
  {
    var r1 := Reader(OnHeader(os, r.state, hdr), [], r.used + HEADER);
    if r.state.files.fd <= 0 {
      FeedNothing(ServerOf(os), r1, LeBytes(SIZE_FIELD, |c.file|) + c.file);
    } else {
      FeedFile(os, r1, hdr, c.file);
    }
  }

  lemma FeedWrite(os: Oracle, r: Reader<Srv>, c: Command, id: nat)
    requires Ok(r.state) && AtHead(r) && c.Write? && c.WellFormed() && id < 0x1_0000_0000_0000_0000
    ensures var r' := Feed(ServerOf(os), r, MessageOf(c, id));
            && r'.state == HandleCommand(os, r.state, c, id) && r'.got == []
            && (r'.state.at != Stopped ==> r'.used == r.used + |MessageOf(c, id)|)
  {
    var hdr, size := HeaderOf(c, id), LeBytes(SIZE_FIELD, |c.file|);
    Associative(EncodeHeader(hdr), size, c.file);
    FeedHeader(os, r, hdr, size + c.file);
    FeedWriteBody(os, r, c, hdr);
  }

  lemma FeedClose(os: Oracle, r: Reader<Srv>, c: Command, id: nat)
    requires Ok(r.state) && AtHead(r) && c.Close? && id < 0x1_0000_0000_0000_0000
    ensures Feed(ServerOf(os), r, MessageOf(c, id))
         == Reader(HandleCommand(os, r.state, c, id), [], r.used + |MessageOf(c, id)|)
  {
    var hdr := HeaderOf(c, id);
    assert EncodeHeader(hdr) + [] == EncodeHeader(hdr);
    FeedHeader(os, r, hdr, []);
    FeedNothing(ServerOf(os), Reader(OnHeader(os, r.state, hdr), [], r.used + HEADER), []);
  }

  lemma HandleCommandIs(os: Oracle, s: Srv, c: Command, id: nat)
    requires Ok(s) && s.at == InHeader && c.WellFormed()
    ensures var s', status := HandleCommand(os, s, c, id), StatusOf(os, s, c);
            && Ok(s') && s'.pass == s.pass + 1 && status < 0x1_0000_0000
            && s'.out == s.out + EncodeHeader(ResponseTo(c, id, status))
            && s'.at == if status == 0 then InHeader else Stopped
  {
  }

  /** What a message leaves of the files, in any state of the server: a refused one leaves them alone; an OPEN that
   * fails leaves the descriptor at -1, a good one an empty file; a WRITE sets the size, and then either nothing
   * more, or the file at its new length, or the payload in it; a CLOSE leaves nothing open and nothing mapped.
   */
  lemma FilesAfter(os: Oracle, s: Srv, c: Command, id: nat)
    requires Ok(s) && s.at == InHeader && c.WellFormed()
    ensures var f, g, answer := s.files, HandleCommand(os, s, c, id).files, os(s.pass);
            match c
            case Open(path, _) =>
              if !f.Closed() || !answer.mallocOk then g == f
              else if answer.openFd < 0 then g == f.(fd := -1)
              else g == f.(fd := answer.openFd, target := path, disk := f.disk[path := []])
            case Write(file) =>
              if f.fd <= 0 then g == f
              else if !answer.truncateOk then g == f.(bytes := |file|)
              else if answer.mmapOk then g == f.(bytes := |file|, mapping := Mapped, disk := f.disk[f.target := file])
              else
                && f.target in g.disk && |g.disk[f.target]| == |file|
                && (forall i :: 0 <= i < |file| ==>
                      g.disk[f.target][i] == if i < |Contents(f)| then Contents(f)[i] else 0)
                && g == f.(bytes := |file|, mapping := MapFailed, disk := f.disk[f.target := g.disk[f.target]])
            case Close => g == f.(fd := if f.fd > 0 then 0 else f.fd, mapping := Unmapped)
  {
  }

  /** Framing: a well-formed message has exactly its intended effect and is answered once; the server goes
   * on exactly when the status is 0, and has then consumed the whole message.
   */
  lemma FeedMessage(os: Oracle, r: Reader<Srv>, c: Command, id: nat)
    requires Ok(r.state) && AtHead(r) && c.WellFormed() && id < 0x1_0000_0000_0000_0000
    ensures var r' := Feed(ServerOf(os), r, MessageOf(c, id));
            var status := StatusOf(os, r.state, c);
            && r'.state == HandleCommand(os, r.state, c, id)
            && Ok(r'.state)
            && r'.state.out == r.state.out + EncodeHeader(ResponseTo(c, id, status))
            && r'.state.pass == r.state.pass + 1
            && status < 0x1_0000_0000
            && (if status == 0 then AtHead(r') && r'.used == r.used + |MessageOf(c, id)| else Halted(r'))
  {
    HandleCommandIs(os, r.state, c, id);
    match c {
      case Open(_, _) => FeedOpen(os, r, c, id);
      case Write(_) => FeedWrite(os, r, c, id);
      case Close => FeedClose(os, r, c, id);
    }
  }

  // ---------------------------------------------------------------------------------------------
  // Headers that are refused
  // ---------------------------------------------------------------------------------------------

  /** The server has answered the header with the status and left its loop; its files are as they were. */
  predicate Refused(a: Srv, b: Srv, h: Header, status: nat) {
    && a.out <= b.out && |b.out| == |a.out| + 16
    && DecodeHeader(b.out[|a.out|..])
       == Header(0, if h.command < 0x80 then h.command + 0x80 else h.command, 16, status, h.id)
    && b.files == a.files && b.at == Stopped && b.pass == a.pass + 1
  }

  /** The server reads on for the path of an OPEN or the size of a WRITE; a CLOSE it does at once. */
  predicate GoesAhead(os: Oracle, s: Srv, h: Header) {
    || (h.command == 1 && s.files.Closed() && os(s.pass).mallocOk)
    || h.command == 2
    || (h.command == 3 && s.files.fd > 0 && h.len == 24)
  }

  /** Every header that is not accepted: an invalid one is not answered; an unknown command, a WRITE without an
   * open file or of another length is answered EINVAL; an OPEN is answered EBUSY when a file is open or mapped,
   * and ENOMEM without memory for its path. In each case the server leaves its loop.
   */
  lemma HeaderRefused(os: Oracle, r: Reader<Srv>, h: Header)
    requires Ok(r.state) && AtHead(r) && h.Fits()
    requires h.version != 0 || h.len < 16 || !GoesAhead(os, r.state, h)
    ensures var b := Feed(ServerOf(os), r, EncodeHeader(h)).state;
            if h.version != 0 || h.len < 16 then b == r.state.(at := Stopped)
            else if h.command != 1 then Refused(r.state, b, h, 22)
            else if !r.state.files.Closed() then Refused(r.state, b, h, 16)
            else Refused(r.state, b, h, 12)
  {
    assert EncodeHeader(h) + [] == EncodeHeader(h);
    FeedHeader(os, r, h, []);
    var r1 := Reader(OnHeader(os, r.state, h), [], r.used + HEADER);
    FeedNothing(ServerOf(os), r1, []);
    RefusedAtOnce(os, r.state, h);
  }

  lemma RefusedAtOnce(os: Oracle, s: Srv, h: Header)
    requires Ok(s) && s.at == InHeader && h.Fits()
    requires h.version != 0 || h.len < 16 || !GoesAhead(os, s, h)
    ensures var b := OnHeader(os, s, h);
            if h.version != 0 || h.len < 16 then b == s.(at := Stopped)
            else if h.command != 1 then Refused(s, b, h, 22)
            else if !s.files.Closed() then Refused(s, b, h, 16)
            else Refused(s, b, h, 12)
  {
    HeaderRoundTrip(Response(h, 22));
    HeaderRoundTrip(Response(h, 16));
    HeaderRoundTrip(Response(h, 12));
  }

  // ---------------------------------------------------------------------------------------------
  // Pairing over a run of commands
  // ---------------------------------------------------------------------------------------------

  datatype Tagged = Tagged(command: Command, id: nat) {
    predicate WellFormed() { command.WellFormed() && id < 0x1_0000_0000_0000_0000 }
  }

  function Messages(cs: seq<Tagged>): seq<byte> {
    if cs == [] then [] else MessageOf(cs[0].command, cs[0].id) + Messages(cs[1..])
  }

  /** The responses to the first commands, with the given statuses. */
  function Responses(cs: seq<Tagged>, statuses: seq<nat>): seq<byte>
    requires |statuses| <= |cs|
  {
    if statuses == [] then [] else
    EncodeHeader(ResponseTo(cs[0].command, cs[0].id, statuses[0])) + Responses(cs[1..], statuses[1..])
  }

  /** Server a has become b by answering the first commands of cs, with the given statuses. All statuses
   * are 0 but that of a message at which the server left its loop; a server that did not leave has
   * consumed exactly the messages.
   */
  predicate Paired(a: Reader<Srv>, cs: seq<Tagged>, b: Reader<Srv>, statuses: seq<nat>) {
    && |statuses| <= |cs| && (forall i :: 0 <= i < |statuses| ==> statuses[i] < 0x1_0000_0000)
    && b.state.out == a.state.out + Responses(cs, statuses)
    && b.state.pass == a.state.pass + |statuses|
    && (forall i :: 0 <= i < |statuses| - 1 ==> statuses[i] == 0)
    && (if Halted(b) then |statuses| > 0 && statuses[|statuses| - 1] != 0
        else AtHead(b) && |statuses| == |cs| && b.used == a.used + |Messages(cs)|
             && (|statuses| > 0 ==> statuses[|statuses| - 1] == 0))
  }

  /** The first of several messages. */
  lemma FeedFirst(os: Oracle, r: Reader<Srv>, cs: seq<Tagged>) returns (status: nat, r1: Reader<Srv>)
    requires Ok(r.state) && AtHead(r) && cs != [] && cs[0].WellFormed()
    ensures Ok(r1.state) && status < 0x1_0000_0000 && if status == 0 then AtHead(r1) else Halted(r1)
    ensures r1.state.out == r.state.out + EncodeHeader(ResponseTo(cs[0].command, cs[0].id, status))
    ensures r1.state.pass == r.state.pass + 1
    ensures status == 0 ==> r1.used == r.used + |MessageOf(cs[0].command, cs[0].id)|
    ensures Sound(ServerOf(os), r1)
    ensures Feed(ServerOf(os), r, Messages(cs)) == Feed(ServerOf(os), r1, Messages(cs[1..]))
  {
    var c := cs[0];
    status := StatusOf(os, r.state, c.command);
    FeedMessage(os, r, c.command, c.id);
    FeedConcat(ServerOf(os), r, MessageOf(c.command, c.id), Messages(cs[1..]));
    r1 := Feed(ServerOf(os), r, MessageOf(c.command, c.id));
  }

  lemma PairedStep(a: Reader<Srv>, a1: Reader<Srv>, cs: seq<Tagged>, b: Reader<Srv>, more: seq<nat>)
    requires cs != [] && AtHead(a1) && Paired(a1, cs[1..], b, more)
    requires a1.state.out == a.state.out + EncodeHeader(ResponseTo(cs[0].command, cs[0].id, 0))
    requires a1.state.pass == a.state.pass + 1 && a1.used == a.used + |MessageOf(cs[0].command, cs[0].id)|
    ensures Paired(a, cs, b, [0] + more)
  {
    var statuses := [0] + more;
    assert |more| > 0 ==> statuses[|statuses| - 1] == more[|more| - 1];
    ResponsesCons(cs, 0, more);
    Associative(a.state.out, EncodeHeader(ResponseTo(cs[0].command, cs[0].id, 0)), Responses(cs[1..], more));
  }

  lemma ResponsesCons(cs: seq<Tagged>, status: nat, more: seq<nat>)
    requires |more| < |cs|
    ensures Responses(cs, [status] + more)
         == EncodeHeader(ResponseTo(cs[0].command, cs[0].id, status)) + Responses(cs[1..], more)
  {
    assert ([status] + more)[1..] == more;
  }

  lemma {:induction false} ResponsesAt(cs: seq<Tagged>, statuses: seq<nat>, i: nat)
    requires i < |statuses| <= |cs|
    ensures |Responses(cs, statuses)| == 16 * |statuses|
    ensures Responses(cs, statuses)[16 * i..16 * i + 16]
         == EncodeHeader(ResponseTo(cs[i].command, cs[i].id, statuses[i]))
  {
    var first := EncodeHeader(ResponseTo(cs[0].command, cs[0].id, statuses[0]));
    var rest := Responses(cs[1..], statuses[1..]);
    if |statuses| > 1 {
      ResponsesAt(cs[1..], statuses[1..], if i > 0 then i - 1 else 0);
      if i > 0 { assert (first + rest)[16 * i..16 * i + 16] == rest[16 * (i - 1)..16 * (i - 1) + 16]; }
    } else {
      assert rest == [];
    }
  }

  /** The command byte of the answer to a command. */
  function AnswerByte(c: Command): nat { match c case Open(_, _) => 0x81 case Close => 0x82 case Write(_) => 0x83 }

  /** What a server has sent between `before` and `after` answers the first commands of cs, one to one and in order:
   * as many responses of 16 bytes as there are statuses, each with version 0, the command and the response bit, the
   * status, and the id of its command.
   */
  predicate Answers(before: seq<byte>, after: seq<byte>, cs: seq<Tagged>, statuses: seq<nat>) {
    && |statuses| <= |cs|
    && before <= after && |after| == |before| + 16 * |statuses|
    && forall i :: 0 <= i < |statuses| ==>
         var at := |before| + 16 * i;
         DecodeHeader(after[at..at + 16]) == Header(0, AnswerByte(cs[i].command), 16, statuses[i], cs[i].id)
  }

  /** Over any run of well-formed commands the responses answer the commands one to one and in order. All
   * statuses are 0 but that of a message at which the server left its loop; a server that did not leave has
   * consumed exactly the messages.
   */
  lemma Pairing(os: Oracle, r: Reader<Srv>, cs: seq<Tagged>) returns (statuses: seq<nat>)
    requires Ok(r.state) && AtHead(r) && forall i :: 0 <= i < |cs| ==> cs[i].WellFormed()
    ensures var b := Feed(ServerOf(os), r, Messages(cs));
            && Answers(r.state.out, b.state.out, cs, statuses)
            && b.state.pass == r.state.pass + |statuses|
            && (forall i :: 0 <= i < |statuses| - 1 ==> statuses[i] == 0)
            && (if Halted(b) then |statuses| > 0 && statuses[|statuses| - 1] != 0
                else AtHead(b) && |statuses| == |cs| && b.used == r.used + |Messages(cs)|
                     && (|statuses| > 0 ==> statuses[|statuses| - 1] == 0))
  {
    statuses := PairingBytes(os, r, cs);
    ResponsesAnswer(r.state.out, cs, statuses);
  }

  lemma ResponsesAnswer(before: seq<byte>, cs: seq<Tagged>, statuses: seq<nat>)
    requires |statuses| <= |cs| && (forall i :: 0 <= i < |cs| ==> cs[i].WellFormed())
    requires forall i :: 0 <= i < |statuses| ==> statuses[i] < 0x1_0000_0000
    ensures Answers(before, before + Responses(cs, statuses), cs, statuses)
  {
    if statuses != [] { ResponsesAt(cs, statuses, 0); }
    forall i | 0 <= i < |statuses|
      ensures var at := |before| + 16 * i;
              && at + 16 <= |before + Responses(cs, statuses)|
              && DecodeHeader((before + Responses(cs, statuses))[at..at + 16])
                 == Header(0, AnswerByte(cs[i].command), 16, statuses[i], cs[i].id)
    {
      AnswerAt(before, cs, statuses, i);
    }
  }

  lemma AnswerAt(before: seq<byte>, cs: seq<Tagged>, statuses: seq<nat>, i: nat)
    requires i < |statuses| <= |cs| && cs[i].WellFormed() && statuses[i] < 0x1_0000_0000
    ensures var all, at := before + Responses(cs, statuses), |before| + 16 * i;
            && at + 16 <= |all|
            && DecodeHeader(all[at..at + 16]) == Header(0, AnswerByte(cs[i].command), 16, statuses[i], cs[i].id)
  {
    ResponsesAt(cs, statuses, i);
    ResponseLayout(cs[i].command, cs[i].id, statuses[i]);
    SliceAfter(before, Responses(cs, statuses), 16 * i);
  }

  lemma SliceAfter(a: seq<byte>, b: seq<byte>, k: nat)
    requires k + 16 <= |b|
    ensures (a + b)[|a| + k..|a| + k + 16] == b[k..k + 16]
  {
  }

  lemma {:induction false} PairingBytes(os: Oracle, r: Reader<Srv>, cs: seq<Tagged>) returns (statuses: seq<nat>)
    requires Ok(r.state) && AtHead(r) && forall i :: 0 <= i < |cs| ==> cs[i].WellFormed()
    ensures Paired(r, cs, Feed(ServerOf(os), r, Messages(cs)), statuses)
    decreases |cs|
  {
    if cs == [] {
      FeedNothing(ServerOf(os), r, []);
      statuses := [];
    } else {
      var status, r1 := FeedFirst(os, r, cs);
      if status != 0 {
        FeedNothing(ServerOf(os), r1, Messages(cs[1..]));
        statuses := [status];
        assert Responses(cs[1..], statuses[1..]) == [];
      } else {
        var more := PairingBytes(os, r1, cs[1..]);
        statuses := [0] + more;
        PairedStep(r, r1, cs, Feed(ServerOf(os), r1, Messages(cs[1..])), more);
      }
    }
  }
}
