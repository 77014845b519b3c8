/** Parsing of a request head in the text protocol. The parser cuts a copy of the head into
    NUL-terminated pieces in place; the functions say what it finds in the text. */
module MemcachedProtocol {
  import opened Bytes

  const NUL: char := '\0'
  const MAX_KEY_SIZE: nat := 251
  const MAX_QUERY_HEADER_SIZE: nat := 512

  datatype Cmd = CmdUnknown | CmdSet | CmdGet | CmdDelete | CmdSync | CmdPower

  datatype ParseStatus = PsUnknown | PsSucc | PsFailed

  /** The parsed fields of query_request_s. */
  datatype Request = Request(cmdType: Cmd, status: ParseStatus, flag: int, exptime: int, dataSize: nat, key: string)

  // ---------- the library functions the parser uses ----------

  function Skip(s: string): (r: string)
    ensures |r| <= |s|
  {
    if s != "" && s[0] == ' ' then Skip(s[1..]) else s
  }

  /** The length of the part before the first space. */
  function Span(s: string): (n: nat)
    ensures n <= |s|
  {
    if s == "" || s[0] == ' ' then 0 else 1 + Span(s[1..])
  }

  /** strtok_r with " ": the next token and what is left for the next call. */
  function NextToken(s: string): Option<(string, string)> {
    var t := Skip(s);
    if t == "" then None
    else
      var n := Span(t);
      Some((t[..n], if n == |t| then "" else t[n + 1..]))
  }

  function Lower(c: char): char {
    if 'A' <= c <= 'Z' then (c as int + 32) as char else c
  }

  /** strcasecmp(a, b) == 0 */
  predicate SameIgnoringCase(a: string, b: string) {
    |a| == |b| && forall i :: 0 <= i < |a| ==> Lower(a[i]) == Lower(b[i])
  }

  predicate IsDigit(c: char) {
    '0' <= c <= '9'
  }

  predicate IsSpace(c: char) {
    c == ' ' || 9 as char <= c <= 13 as char
  }

  function DigitsValue(s: string, acc: nat): nat {
    if s != "" && IsDigit(s[0]) then DigitsValue(s[1..], 10 * acc + (s[0] as int - '0' as int)) else acc
  }

  function TrimLeft(s: string): string {
    if s != "" && IsSpace(s[0]) then TrimLeft(s[1..]) else s
  }

  /** atoi and atol, where the value fits the result type. */
  function Atoi(s: string): int {
    var t := TrimLeft(s);
    if t != "" && t[0] == '-' then 0 - DigitsValue(t[1..], 0)
    else if t != "" && t[0] == '+' then DigitsValue(t[1..], 0)
    else DigitsValue(t, 0)
  }

  // ---------- what the parser finds in a text ----------

  predicate EndsCrLf(s: string) {
    |s| >= 2 && s[|s| - 2] == '\r' && s[|s| - 1] == '\n'
  }

  function Clip(s: string): string {
    if |s| < MAX_KEY_SIZE then s else s[..MAX_KEY_SIZE - 1]
  }

  /** ScanKey. One space before the line end is dropped; when there is no key, that test looks at
      the byte before it. */
  function ScannedKey(rest: string): Option<string> {
    var s := Skip(rest);
    if !EndsCrLf(s) then None
    else if |s| == 2 then Some(if |rest| > 2 then "\r\n" else "")
    else Some(Clip(if s[|s| - 3] == ' ' then s[..|s| - 3] else s[..|s| - 2]))
  }

  /** parse_set_cmd: the outcome, and the fields filled in so far when it fails. */
  function SetFields(rest: string, r: Request): (bool, Request) {
    if EndsCrLf(rest) then AfterCommand(rest[..|rest| - 2], r) else (false, r)
  }

  function AfterCommand(rest: string, r: Request): (bool, Request) {
    match NextToken(rest)
    case None => (false, r)
    case Some((key, rest1)) =>
      if |key| >= MAX_KEY_SIZE then (false, r) else AfterKey(rest1, r.(key := key))
  }

  function AfterKey(rest: string, r: Request): (bool, Request) {
    match NextToken(rest)
    case None => (false, r)
    case Some((flag, rest1)) => AfterFlag(rest1, r.(flag := Atoi(flag)))
  }

  function AfterFlag(rest: string, r: Request): (bool, Request) {
    match NextToken(rest)
    case None => (false, r)
    case Some((exptime, rest1)) => AfterExptime(rest1, r.(exptime := Atoi(exptime)))
  }

  function AfterExptime(rest: string, r: Request): (bool, Request) {
    match NextToken(rest)
    case None => (false, r)
    case Some((size, _)) => (true, r.(dataSize := Atoi(size) % 0x1_0000_0000_0000_0000))
  }

  function KeyOnly(rest: string, r: Request): (bool, Request) {
    match ScannedKey(rest)
    case None => (false, r)
    case Some(key) => (true, r.(key := key))
  }

  function Command(token: string): Cmd {
    if SameIgnoringCase(token, "get") then CmdGet
    else if SameIgnoringCase(token, "set") then CmdSet
    else if SameIgnoringCase(token, "delete") then CmdDelete
    else if SameIgnoringCase(token, "sync") then CmdSync
    else if SameIgnoringCase(token, "power") then CmdPower
    else CmdUnknown
  }

  function CommandFields(cmd: Cmd, rest: string, r: Request): (bool, Request) {
    match cmd
    case CmdGet => KeyOnly(rest, r)
    case CmdDelete => KeyOnly(rest, r)
    case CmdSet => SetFields(rest, r)
    case CmdSync =>
      var (ok, r1) := KeyOnly(rest, r);
      (ok && (SameIgnoringCase(r1.key, "index") || SameIgnoringCase(r1.key, "all")), r1)
    case CmdPower =>
      var (ok, r1) := KeyOnly(rest, r);
      (ok && SameIgnoringCase(r1.key, "halt"), r1)
    case CmdUnknown => (false, r)
  }

  /** parse_memcached_string_head: whether it returns RET_SUCCESS, and the request after it. */
  function Parsed(text: string, r: Request): (bool, Request) {
    var r0 := r.(cmdType := CmdUnknown);
    match NextToken(text)
    case None => (false, r0.(status := PsFailed))
    case Some((token, rest)) =>
      var cmd := Command(token);
      var (ok, r1) := CommandFields(cmd, rest, r0);
      (ok, r1.(cmdType := cmd, status := if ok then PsSucc else PsFailed))
  }

  // ---------- the buffer ----------

  /** `b` holds the C string `text` at position `p`. */
  ghost predicate StringAt(b: array<char>, p: nat, text: string)
    reads b
  {
    && p + |text| < b.Length
    && (forall i :: 0 <= i < |text| ==> b[p + i] == text[i] && text[i] != NUL)
    && b[p + |text|] == NUL
  }

  lemma StringFrom(b: array<char>, p: nat, text: string, k: nat)
    requires StringAt(b, p, text) && k <= |text|
    ensures p + |text| < b.Length && StringAt(b, p + k, text[k..])
    ensures k < |text| ==> b[p + k] == text[k] && b[p + k] != NUL
    ensures k == |text| ==> b[p + k] == NUL
  {
  }

  method StrLen(b: array<char>, p: nat, ghost text: string) returns (len: nat)
    requires StringAt(b, p, text)
    ensures len == |text|
  {
    hide StringAt;
    len := 0;
    StringFrom(b, p, text, 0);
    while b[p + len] != NUL
      invariant len <= |text|
      invariant len < |text| ==> b[p + len] == text[len] && b[p + len] != NUL
      decreases |text| - len
    {
      len := len + 1;
      StringFrom(b, p, text, len);
    }
  }

  /** The characters from `p` to the NUL, at most `limit` of them: strncpy into a field. */
  method CopyString(b: array<char>, p: nat, limit: nat, ghost text: string) returns (r: string)
    requires StringAt(b, p, text)
    ensures r == if |text| <= limit then text else text[..limit]
  {
    hide StringAt;
    r := "";
    StringFrom(b, p, text, 0);
    while |r| < limit && b[p + |r|] != NUL
      invariant |r| <= |text| && |r| <= limit && r == text[..|r|]
      invariant |r| < |text| ==> b[p + |r|] == text[|r|] && b[p + |r|] != NUL
      decreases |text| - |r|
    {
      r := r + [b[p + |r|]];
      StringFrom(b, p, text, |r|);
    }
  }

  /** Cutting a string at `k` leaves its beginning, and what comes behind the cut. */
  method Cut(b: array<char>, p: nat, k: nat, ghost text: string)
    requires StringAt(b, p, text) && k < |text|
    modifies b
    ensures StringAt(b, p, text[..k]) && StringAt(b, p + k + 1, text[k + 1..])
    ensures b[p + k] == NUL
  {
    b[p + k] := NUL;
  }

  lemma SkipStep(s: string)
    ensures s != "" && s[0] == ' ' ==> Skip(s) == Skip(s[1..])
    ensures s == "" || s[0] != ' ' ==> Skip(s) == s
  {
  }

  lemma SpanStep(s: string)
    ensures s != "" && s[0] != ' ' ==> Span(s) == 1 + Span(s[1..])
    ensures s == "" || s[0] == ' ' ==> Span(s) == 0
  {
  }

  /** `while (**ptr == ' ') ++*ptr;` */
  method SkipSpaces(b: array<char>, p: nat, ghost s: string) returns (q: nat)
    requires StringAt(b, p, s)
    ensures p <= q == p + |s| - |Skip(s)| && StringAt(b, q, Skip(s))
    ensures q > p ==> b[q - 1] == ' '
  {
    hide StringAt, Skip;
    q := p;
    StringFrom(b, p, s, 0);
    SkipStep(s);
    assert s[0..] == s;
    while b[q] == ' '
      invariant p <= q <= p + |s| && StringAt(b, q, s[q - p..]) && Skip(s) == Skip(s[q - p..])
      invariant q < p + |s| ==> b[q] == s[q - p]
      invariant q > p ==> b[q - 1] == ' '
      decreases p + |s| - q
    {
      SkipStep(s[q - p..]);
      assert s[q - p..][1..] == s[q + 1 - p..];
      q := q + 1;
      StringFrom(b, p, s, q - p);
    }
    SkipStep(s[q - p..]);
  }

  method TokenEnd(b: array<char>, q: nat, ghost t: string) returns (e: nat)
    requires StringAt(b, q, t)
    ensures e == q + Span(t)
  {
    hide StringAt, Span;
    e := q;
    StringFrom(b, q, t, 0);
    assert t[0..] == t;
    while b[e] != ' ' && b[e] != NUL
      invariant q <= e <= q + |t| && Span(t) == (e - q) + Span(t[e - q..])
      invariant e < q + |t| ==> b[e] == t[e - q] && b[e] != NUL
      invariant e == q + |t| ==> b[e] == NUL
      decreases q + |t| - e
    {
      SpanStep(t[e - q..]);
      assert t[e - q..][1..] == t[e + 1 - q..];
      e := e + 1;
      StringFrom(b, q, t, e - q);
    }
    SpanStep(t[e - q..]);
  }

  /** `token` and the next `save` are where the token of `s`, and what is left of it, are now. */
  ghost predicate TokenAt(b: array<char>, p: nat, s: string, token: Option<nat>, save: nat)
    reads b
  {
    match NextToken(s)
    case None => token == None && StringAt(b, save, "")
    case Some((t, r)) =>
      && token.Some? && token.value >= p && StringAt(b, token.value, t) && StringAt(b, save, r)
      && t != "" && token.value + |t| <= save < b.Length
      && (b[save - 1] == NUL || (r == "" && b[save - 1] == t[|t| - 1]))
  }

  lemma NoToken(b: array<char>, p: nat, s: string, q: nat)
    requires Skip(s) == "" && StringAt(b, q, "")
    ensures TokenAt(b, p, s, None, q)
  {
  }

  lemma LastToken(b: array<char>, p: nat, s: string, q: nat)
    requires p <= q && Skip(s) != "" && Span(Skip(s)) == |Skip(s)| && StringAt(b, q, Skip(s))
    ensures TokenAt(b, p, s, Some(q), q + |Skip(s)|)
  {
    var t := Skip(s);
    assert t[..|t|] == t;
  }

  lemma MiddleToken(b: array<char>, p: nat, s: string, q: nat)
    requires p <= q && Skip(s) != "" && 0 < Span(Skip(s)) < |Skip(s)|
    requires var t := Skip(s); var n := Span(t); StringAt(b, q, t[..n]) && StringAt(b, q + n + 1, t[n + 1..])
    ensures TokenAt(b, p, s, Some(q), q + Span(Skip(s)) + 1)
  {
    hide Skip, Span;
    var t := Skip(s);
    assert b[q + Span(t)] == NUL;
  }

  /** strtok_r(_, " ", saveptr): the token is NUL-terminated in place. */
  method StrtokR(b: array<char>, p: nat, ghost s: string) returns (token: Option<nat>, save: nat)
    requires StringAt(b, p, s)
    modifies b
    ensures TokenAt(b, p, s, token, save)
  {
    hide StringAt, Skip, Span, TokenAt;
    var q := SkipSpaces(b, p, s);
    ghost var t := Skip(s);
    StringFrom(b, q, t, 0);
    if b[q] == NUL {
      NoToken(b, p, s, q);
      return None, q;
    }
    var e := TokenEnd(b, q, t);
    StringFrom(b, q, t, Span(t));
    TokenNotEmpty(s);
    if b[e] == NUL {
      LastToken(b, p, s, q);
      return Some(q), e;
    }
    Cut(b, q, e - q, t);
    MiddleToken(b, p, s, q);
    return Some(q), e + 1;
  }

  lemma TokenNotEmpty(s: string)
    ensures Skip(s) != "" ==> Span(Skip(s)) > 0
  {
  }

  // ---------- the parser ----------

  /** What the byte before a rest can be: the NUL that ended the token before it, or, when nothing
      is left, that token's last byte. */
  ghost predicate Preceded(b: array<char>, p: nat, rest: string)
    reads b
  {
    3 <= p < b.Length && (b[p - 1] == NUL || (rest == "" && b[p - 1] != '\n'))
  }

  method ScanKey(b: array<char>, p: nat, ghost rest: string) returns (key: Option<string>)
    requires StringAt(b, p, rest) && Preceded(b, p, rest)
    modifies b
    ensures key == ScannedKey(rest)
  {
    hide StringAt, Skip;
    StringFrom(b, p, rest, 0);
    var q := SkipSpaces(b, p, rest);
    ghost var s := Skip(rest);
    var len := StrLen(b, q, s);
    if len >= 1 { StringFrom(b, q, s, len - 1); }
    if len >= 2 { StringFrom(b, q, s, len - 2); }
    if len >= 3 { StringFrom(b, q, s, len - 3); }
    if !(b[q + len - 1] == '\n' && b[q + len - 2] == '\r') {
      return None;
    }
    assert EndsCrLf(s);
    assert len == 2 ==> (b[q - 1] == ' ' <==> |rest| > 2);
    if b[q + len - 3] == ' ' {
      if len >= 3 {
        Cut(b, q, len - 3, s);
        s := s[..len - 3];
      } else {
        CutBefore(b, q, s);
        assert s == "\r\n";
      }
    } else {
      Cut(b, q, len - 2, s);
      s := s[..len - 2];
    }
    var k := CopyString(b, q, MAX_KEY_SIZE - 1, s);
    return Some(k);
  }

  /** The same write one byte before the string: the string stays. */
  method CutBefore(b: array<char>, q: nat, ghost s: string)
    requires StringAt(b, q, s) && q > 0
    modifies b
    ensures StringAt(b, q, s)
  {
    b[q - 1] := NUL;
  }

  datatype SetState = SetKey | SetFlag | SetExptime | SetBytes | SetDone | SetFailed

  datatype HeadState = Ready | Fields(cmd: Cmd) | Done | Fatal

  /** query_request_s */
  class QueryRequest {
    const queryHeadBuf: array<char>
    var cmdType: Cmd
    var parseStatus: ParseStatus
    var flag: int
    var exptime: int
    var dataSize: nat
    var key: string

    constructor ()
      ensures fresh(queryHeadBuf) && queryHeadBuf.Length == 512
    {
      queryHeadBuf := new char[MAX_QUERY_HEADER_SIZE](_ => NUL);
      cmdType, parseStatus, flag, exptime, dataSize, key := CmdUnknown, PsUnknown, 0, 0, 0, "";
    }

    ghost function Model(): Request
      reads this
    {
      Request(cmdType, parseStatus, flag, exptime, dataSize, key)
    }

    method ParseKeyOnly(b: array<char>, p: nat, ghost rest: string) returns (ok: bool)
      requires StringAt(b, p, rest) && Preceded(b, p, rest)
      modifies this, b
      ensures (ok, Model()) == KeyOnly(rest, old(Model()))
    {
      hide StringAt, Preceded, ScannedKey;
      var k := ScanKey(b, p, rest);
      match k
      case None => return false;
      case Some(text) =>
        key := text;
        return true;
    }

    /** What is still to come, by state. */
    ghost function SetOutcome(state: SetState, left: string, retval: bool): (bool, Request)
      reads this
    {
      match state
      case SetKey => AfterCommand(left, Model())
      case SetFlag => AfterKey(left, Model())
      case SetExptime => AfterFlag(left, Model())
      case SetBytes => AfterExptime(left, Model())
      case SetFailed => (false, Model())
      case SetDone => (retval, Model())
    }

    static function SetRank(state: SetState): nat {
      match state
      case SetKey => 5
      case SetFlag => 4
      case SetExptime => 3
      case SetBytes => 2
      case SetFailed => 1
      case SetDone => 0
    }

    /** parse_set_cmd */
    method ParseSetCmd(b: array<char>, p: nat, ghost rest: string) returns (retval: bool)
      requires StringAt(b, p, rest) && Preceded(b, p, rest)
      modifies this, b
      ensures (retval, Model()) == SetFields(rest, old(Model()))
    {
      hide StringAt, NextToken, Atoi;
      var len := StrLen(b, p, rest);
      StringFrom(b, p, rest, 0);
      if len >= 1 { StringFrom(b, p, rest, len - 1); }
      if len >= 2 { StringFrom(b, p, rest, len - 2); }
      if !(b[p + len - 1] == '\n' && b[p + len - 2] == '\r') {
        return false;
      }
      Cut(b, p, len - 2, rest);
      var state, save := SetKey, p;
      ghost var left := rest[..len - 2];
      retval := true;
      while state != SetDone
        invariant SetOutcome(state, left, retval) == SetFields(rest, old(Model()))
        invariant state != SetDone && state != SetFailed ==> StringAt(b, save, left)
        invariant state != SetDone ==> retval
        decreases SetRank(state)
      {
        if state == SetFailed {
          state := SetDone;
          retval := false;
        } else {
          var token, save' := StrtokR(b, save, left);
          TokenText(b, save, left, token, save');
          if token == None {
            state := SetFailed;
          } else {
            ghost var (t, r) := NextToken(left).value;
            TokenFits(b, token.value, t);
            var text := CopyString(b, token.value, b.Length, t);
            save, left := save', r;
            if state == SetKey {
              if |text| >= MAX_KEY_SIZE {
                state := SetFailed;
              } else {
                key := text;
                state := SetFlag;
              }
            } else if state == SetFlag {
              flag := Atoi(text);
              state := SetExptime;
            } else if state == SetExptime {
              exptime := Atoi(text);
              state := SetBytes;
            } else {
              dataSize := Atoi(text) % 0x1_0000_0000_0000_0000;
              state := SetDone;
            }
          }
        }
      }
    }

    ghost function HeadOutcome(state: HeadState, rest: string, ok: bool): (bool, Request)
      reads this
    {
      match state
      case Ready => (false, Model())
      case Fields(cmd) =>
        var (done, r) := CommandFields(cmd, rest, Model());
        (done, r.(cmdType := cmd, status := if done then PsSucc else PsFailed))
      case Fatal => (false, Model().(status := PsFailed))
      case Done => (ok, Model())
    }

    static function HeadRank(state: HeadState): nat {
      match state
      case Ready => 3
      case Fields(_) => 2
      case Fatal => 1
      case Done => 0
    }

    /** The HandleCmd cases. */
    method ParseFields(cmd: Cmd, b: array<char>, p: nat, ghost rest: string) returns (ok: bool)
      requires StringAt(b, p, rest) && Preceded(b, p, rest) && cmd != CmdUnknown
      modifies this, b
      ensures (ok, Model()) == CommandFields(cmd, rest, old(Model()))
    {
      hide StringAt, Preceded, KeyOnly, SetFields, SameIgnoringCase;
      if cmd == CmdSet {
        ok := ParseSetCmd(b, p, rest);
      } else {
        ok := ParseKeyOnly(b, p, rest);
        if cmd == CmdSync {
          ok := ok && (SameIgnoringCase(key, "index") || SameIgnoringCase(key, "all"));
        } else if cmd == CmdPower {
          ok := ok && SameIgnoringCase(key, "halt");
        }
      }
    }

    /** parse_memcached_string_head, on a copy of the head that is cut in place. */
    method ParseHead() returns (ok: bool)
      requires queryHeadBuf.Length == 512
      modifies this
      ensures (ok, Model()) == Parsed(CString(queryHeadBuf[..511]), old(Model()))
    {
      hide StringAt, Preceded, NextToken, CommandFields, Command, CString;
      ghost var text := CString(queryHeadBuf[..MAX_QUERY_HEADER_SIZE - 1]);
      ok := true;
      cmdType := CmdUnknown;
      var b := CopyHead();
      var token, save := StrtokR(b, 0, text);
      TokenText(b, 0, text, token, save);
      if token == None {
        parseStatus := PsFailed;
        return false;
      }
      ghost var (t, rest) := NextToken(text).value;
      TokenFits(b, token.value, t);
      var command := CopyString(b, token.value, b.Length, t);
      RestPreceded(b, 0, text, token, save);
      var state := Ready;
      while state != Done
        invariant state != Done ==> ok
        invariant state == Ready ==> Model() == old(Model()).(cmdType := CmdUnknown)
        invariant state != Ready ==> HeadOutcome(state, rest, ok) == Parsed(text, old(Model()))
        invariant state.Fields? ==> state.cmd == Command(t) != CmdUnknown
        invariant state == Ready || state.Fields? ==> StringAt(b, save, rest) && (Command(t) != CmdUnknown ==> Preceded(b, save, rest))
        decreases HeadRank(state)
      {
        match state
        case Ready =>
          var cmd := Command(command);
          state := if cmd != CmdUnknown then Fields(cmd) else Fatal;
          assert CommandFields(CmdUnknown, rest, Model()) == (false, Model()) by { UnknownFields(rest, Model()); }
        case Fields(cmd) =>
          var done := ParseFields(cmd, b, save, rest);
          cmdType := cmd;
          parseStatus := if done then PsSucc else PsFailed;
          state := if done then Done else Fatal;
        case Fatal =>
          state := Done;
          ok := false;
          parseStatus := PsFailed;
      }
    }

    /** memmove of the head into a local buffer, whose last byte becomes NUL. */
    method CopyHead() returns (b: array<char>)
      requires queryHeadBuf.Length == MAX_QUERY_HEADER_SIZE
      ensures fresh(b) && StringAt(b, 0, CString(queryHeadBuf[..MAX_QUERY_HEADER_SIZE - 1]))
    {
      b := new char[MAX_QUERY_HEADER_SIZE];
      forall i | 0 <= i < MAX_QUERY_HEADER_SIZE { b[i] := queryHeadBuf[i]; }
      b[MAX_QUERY_HEADER_SIZE - 1] := NUL;
      CStringIs(queryHeadBuf[..MAX_QUERY_HEADER_SIZE - 1]);
    }
  }

  /** The characters before the first NUL. */
  function CString(s: seq<char>): string {
    if s == [] || s[0] == NUL then "" else [s[0]] + CString(s[1..])
  }

  lemma {:induction false} CStringIs(s: seq<char>)
    ensures var t := CString(s);
            && |t| <= |s| && t == s[..|t|] && NUL !in t
            && (|t| < |s| ==> s[|t|] == NUL)
  {
    if s != [] && s[0] != NUL { CStringIs(s[1..]); }
  }

  lemma UnknownFields(rest: string, r: Request)
    ensures CommandFields(CmdUnknown, rest, r) == (false, r)
  {
  }

  lemma CommandShape(t: string)
    requires Command(t) != CmdUnknown
    ensures |t| >= 3 && t[|t| - 1] != '\n'
  {
  }

  lemma RestPreceded(b: array<char>, p: nat, s: string, token: Option<nat>, save: nat)
    requires TokenAt(b, p, s, token, save) && token.Some?
    ensures Command(NextToken(s).value.0) != CmdUnknown ==> Preceded(b, save, NextToken(s).value.1)
  {
    hide Command, StringAt;
    var (t, r) := NextToken(s).value;
    if Command(t) != CmdUnknown { CommandShape(t); }
  }

  lemma TokenText(b: array<char>, p: nat, s: string, token: Option<nat>, save: nat)
    requires TokenAt(b, p, s, token, save)
    ensures NextToken(s).Some? <==> token.Some?
    ensures token.Some? ==>
              var (t, r) := NextToken(s).value;
              StringAt(b, token.value, t) && StringAt(b, save, r) && t != "" && token.value + |t| <= save < b.Length
  {
  }

  lemma TokenFits(b: array<char>, p: nat, t: string)
    requires StringAt(b, p, t)
    ensures |t| <= b.Length
  {
  }
}
