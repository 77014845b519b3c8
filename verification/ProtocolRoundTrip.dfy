/** Heads written by the grammar of the text protocol, and what parsing makes of them. */
module ProtocolRoundTrip {
  import opened Bytes
  import opened MemcachedProtocol

  function Blanks(n: nat): (s: string)
    ensures |s| == n && forall i :: 0 <= i < n ==> s[i] == ' '
  {
    if n == 0 then "" else " " + Blanks(n - 1)
  }

  /** A word of a head and the spaces before it. */
  datatype Word = Word(blanks: nat, text: string)

  predicate WordOk(w: Word) {
    w.text != "" && ' ' !in w.text
  }

  function Shown(w: Word): string {
    Blanks(w.blanks) + w.text
  }

  const CRLF: string := "\r\n"

  // ---------- numbers ----------

  function Digit(d: nat): char
    requires d < 10
  {
    ('0' as int + d) as char
  }

  function Digits(n: nat): (s: string)
    ensures s != "" && forall i :: 0 <= i < |s| ==> IsDigit(s[i])
  {
    if n < 10 then [Digit(n)] else Digits(n / 10) + [Digit(n % 10)]
  }

  function Number(n: int): string {
    if n < 0 then "-" + Digits(-n) else Digits(n)
  }

  lemma {:induction false} DigitsValueAppend(s: string, c: char, acc: nat)
    requires IsDigit(c) && forall i :: 0 <= i < |s| ==> IsDigit(s[i])
    ensures DigitsValue(s + [c], acc) == 10 * DigitsValue(s, acc) + (c as int - '0' as int)
    decreases |s|
  {
    if s == "" {
      assert ("" + [c])[1..] == "";
    } else {
      assert (s + [c])[1..] == s[1..] + [c];
      DigitsValueAppend(s[1..], c, 10 * acc + (s[0] as int - '0' as int));
    }
  }

  lemma {:induction false} DigitsRoundTrip(n: nat)
    ensures DigitsValue(Digits(n), 0) == n
  {
    if n >= 10 {
      DigitsRoundTrip(n / 10);
      DigitsValueAppend(Digits(n / 10), Digit(n % 10), 0);
    } else {
      assert Digits(n)[1..] == "";
    }
  }

  lemma NumberRoundTrip(n: int)
    ensures Atoi(Number(n)) == n
    ensures Number(n) != "" && ' ' !in Number(n)
  {
    if n < 0 {
      DigitsRoundTrip(-n);
      assert Number(n)[1..] == Digits(-n);
    } else {
      DigitsRoundTrip(n);
    }
  }

  lemma {:induction false} DigitsThen(n: nat, tail: string)
    requires tail == "" || !(48 <= tail[0] as int <= 57)
    ensures DigitsValue(Digits(n) + tail, 0) == n
  {
    DigitsRoundTrip(n);
    StopsAtTail(Digits(n), tail, 0);
  }

  lemma {:induction false} StopsAtTail(s: string, tail: string, acc: nat)
    requires forall i :: 0 <= i < |s| ==> IsDigit(s[i])
    requires tail == "" || !(48 <= tail[0] as int <= 57)
    ensures DigitsValue(s + tail, acc) == DigitsValue(s, acc)
    decreases |s|
  {
    if s == "" {
      assert s + tail == tail;
    } else {
      assert (s + tail)[1..] == s[1..] + tail;
      StopsAtTail(s[1..], tail, 10 * acc + (s[0] as int - '0' as int));
    }
  }

  predicate WhiteSpace(s: string) {
    forall i :: 0 <= i < |s| ==> s[i] as int == 32 || 9 <= s[i] as int <= 13
  }

  lemma {:induction false} TrimWhite(s: string, t: string)
    requires WhiteSpace(s) && (t == "" || !IsSpace(t[0]))
    ensures TrimLeft(s + t) == t
    decreases |s|
  {
    if s == "" {
      assert s + t == t;
    } else {
      assert (s + t)[1..] == s[1..] + t;
      TrimWhite(s[1..], t);
    }
  }

  /** atoi: white space, a sign or none, digits, and whatever comes after them. */
  lemma AtoiReads(lead: string, sign: string, n: nat, tail: string)
    requires WhiteSpace(lead) && sign in ["", "+", "-"] && (tail == "" || !(48 <= tail[0] as int <= 57))
    ensures Atoi(lead + (sign + (Digits(n) + tail))) == if sign == "-" then 0 - n else n
  {
    hide TrimLeft, DigitsValue, Digits;
    var body := Digits(n) + tail;
    var t := sign + body;
    assert IsDigit(Digits(n)[0]) && body[0] == Digits(n)[0];
    TrimWhite(lead, t);
    DigitsThen(n, tail);
    if sign == "" { assert t == body; } else { assert t[1..] == body; }
  }

  // ---------- tokens ----------

  lemma {:induction false} SkipBlanks(n: nat, s: string)
    requires s == "" || s[0] != ' '
    ensures Skip(Blanks(n) + s) == s
  {
    if n == 0 {
      assert Blanks(0) + s == s;
    } else {
      assert (Blanks(n) + s)[1..] == Blanks(n - 1) + s;
      SkipBlanks(n - 1, s);
    }
  }

  lemma {:induction false} SpanOfWord(t: string, s: string)
    requires ' ' !in t && (s == "" || s[0] == ' ')
    ensures Span(t + s) == |t|
    decreases |t|
  {
    if t == "" {
      assert t + s == s;
    } else {
      assert (t + s)[1..] == t[1..] + s;
      SpanOfWord(t[1..], s);
    }
  }

  /** The next token is the word, and one space behind it is used up. */
  lemma TokenIsWord(w: Word, s: string)
    requires WordOk(w) && (s == "" || s[0] == ' ')
    ensures NextToken(Shown(w) + s) == Some((w.text, if s == "" then "" else s[1..]))
  {
    hide Skip, Span;
    assert Shown(w) + s == Blanks(w.blanks) + (w.text + s);
    SkipBlanks(w.blanks, w.text + s);
    SpanOfWord(w.text, s);
    assert (w.text + s)[..|w.text|] == w.text;
    if s != "" { assert (w.text + s)[|w.text| + 1..] == s[1..]; }
  }

  /** The same word with one space less before it. */
  function Closer(w: Word): Word {
    if w.blanks > 0 then w.(blanks := w.blanks - 1) else w
  }

  lemma ShownCloser(w: Word, s: string)
    requires w.blanks > 0
    ensures Shown(w) + s != "" && (Shown(w) + s)[0] == ' ' && (Shown(w) + s)[1..] == Shown(Closer(w)) + s
  {
    assert Blanks(w.blanks) == " " + Blanks(w.blanks - 1);
  }

  /** A token followed by another word. */
  lemma TokenBeforeWord(v: Word, w: Word, s: string)
    requires WordOk(v) && w.blanks > 0
    ensures NextToken(Shown(v) + (Shown(w) + s)) == Some((v.text, Shown(Closer(w)) + s))
  {
    hide NextToken, Shown;
    ShownCloser(w, s);
    TokenIsWord(v, Shown(w) + s);
  }

  // ---------- get and delete ----------

  predicate KeyOk(key: string) {
    && 1 <= |key| <= 250
    && ' ' !in key && '\r' !in key && '\n' !in key && NUL !in key
  }

  /** A key with spaces before and after it, up to the line end: one of the spaces behind it is
      dropped, the others become part of the key as far as the field has room. */
  lemma KeyScanned(w: Word, trailing: nat)
    requires KeyOk(w.text)
    ensures ScannedKey(Shown(w) + (Blanks(trailing) + CRLF)) ==
              Some(Clip(w.text + Blanks(if trailing > 0 then trailing - 1 else 0)))
  {
    hide Skip;
    var s := w.text + (Blanks(trailing) + CRLF);
    assert Shown(w) + (Blanks(trailing) + CRLF) == Blanks(w.blanks) + s;
    SkipBlanks(w.blanks, s);
    assert EndsCrLf(s);
    if trailing > 0 {
      assert s[..|s| - 3] == w.text + Blanks(trailing - 1) by { BlanksSplit(trailing); }
    } else {
      assert s[..|s| - 2] == w.text + Blanks(0);
      assert s[|s| - 3] == w.text[|w.text| - 1];
    }
  }

  lemma BlanksSplit(n: nat)
    requires n > 0
    ensures Blanks(n) == Blanks(n - 1) + " "
  {
  }

  /** `<command> <key>` with any spaces around, then the line end. */
  function KeyHead(command: Word, key: Word, trailing: nat): string {
    Shown(command) + (Shown(key) + (Blanks(trailing) + CRLF))
  }

  /** Each letter is that of the lower-case name or its capital, 32 below it in ASCII. */
  predicate InAnyCase(t: string, name: string) {
    |t| == |name| && forall i :: 0 <= i < |t| ==> t[i] == name[i] || t[i] as int == name[i] as int - 32
  }

  predicate AllLowerCase(name: string) {
    forall i :: 0 <= i < |name| ==> 97 <= name[i] as int <= 122
  }

  /** strcasecmp finds a lower-case name in exactly these spellings. */
  lemma AnyCaseIff(t: string, name: string)
    requires AllLowerCase(name)
    ensures SameIgnoringCase(t, name) <==> InAnyCase(t, name)
  {
    if |t| == |name| {
      forall i | 0 <= i < |t|
        ensures Lower(t[i]) == Lower(name[i]) <==> t[i] == name[i] || t[i] as int == name[i] as int - 32
      {
        LetterIff(t[i], name[i]);
      }
    }
  }

  lemma LetterIff(c: char, d: char)
    requires 97 <= d as int <= 122
    ensures Lower(c) == Lower(d) <==> c == d || c as int == d as int - 32
  {
  }

  lemma GetIsNotSet(t: string)
    ensures !(InAnyCase(t, "get") && InAnyCase(t, "set"))
  {
    if |t| == 3 { assert "get"[0] == 'g' && "set"[0] == 's'; }
  }

  /** The five commands, by the spelling of the first token alone. */
  lemma CommandIff(t: string)
    ensures Command(t) == CmdGet <==> InAnyCase(t, "get")
    ensures Command(t) == CmdSet <==> InAnyCase(t, "set")
    ensures Command(t) == CmdDelete <==> InAnyCase(t, "delete")
    ensures Command(t) == CmdSync <==> InAnyCase(t, "sync")
    ensures Command(t) == CmdPower <==> InAnyCase(t, "power")
  {
    hide SameIgnoringCase;
    GetIsNotSet(t);
    AnyCaseIff(t, "get");
    AnyCaseIff(t, "set");
    AnyCaseIff(t, "delete");
    AnyCaseIff(t, "sync");
    AnyCaseIff(t, "power");
  }

  /** For every text with a token, the command that the request ends up with is told by the spelling
      of the first token; a text without one has no command and fails. */
  lemma CommandOfText(w: Word, rest: string, r: Request)
    requires WordOk(w) && (rest == "" || rest[0] == ' ')
    ensures var cmd := Parsed(Shown(w) + rest, r).1.cmdType;
            && (cmd == CmdGet <==> InAnyCase(w.text, "get"))
            && (cmd == CmdSet <==> InAnyCase(w.text, "set"))
            && (cmd == CmdDelete <==> InAnyCase(w.text, "delete"))
            && (cmd == CmdSync <==> InAnyCase(w.text, "sync"))
            && (cmd == CmdPower <==> InAnyCase(w.text, "power"))
  {
    hide NextToken, Shown, Command, InAnyCase, CommandFields;
    TokenIsWord(w, rest);
    CommandIff(w.text);
  }

  lemma BlankText(n: nat, r: Request)
    ensures Parsed(Blanks(n), r) == (false, r.(cmdType := CmdUnknown, status := PsFailed))
  {
    SkipBlanks(n, "");
    assert Blanks(n) + "" == Blanks(n);
  }

  predicate Names(w: Word, name: string) {
    InAnyCase(w.text, name)
  }

  lemma NamedWord(w: Word, name: string)
    requires Names(w, name) && name in ["get", "set", "delete", "sync", "power"]
    ensures WordOk(w)
    ensures Command(w.text) == CmdGet <==> name == "get"
    ensures Command(w.text) == CmdSet <==> name == "set"
    ensures Command(w.text) == CmdDelete <==> name == "delete"
    ensures Command(w.text) == CmdSync <==> name == "sync"
    ensures Command(w.text) == CmdPower <==> name == "power"
  {
    hide Command;
    CommandIff(w.text);
    NamesDiffer(w.text, name);
    assert AllLowerCase(name) && name != "";
    forall i | 0 <= i < |w.text|
      ensures w.text[i] != ' '
    {
      assert 97 <= name[i] as int;
    }
  }

  lemma NamesDiffer(t: string, name: string)
    requires InAnyCase(t, name) && name in ["get", "set", "delete", "sync", "power"]
    ensures forall other :: other in ["get", "set", "delete", "sync", "power"] && InAnyCase(t, other) ==> other == name
  {
    if |t| == 3 {
      assert name == "get" || name == "set";
    }
  }

  /** What a get or delete head parses to, in any letter case and with any number of spaces. */
  lemma KeyHeadParsed(command: Word, name: string, key: Word, trailing: nat, r: Request)
    requires Names(command, name) && name in ["get", "delete"] && key.blanks > 0 && KeyOk(key.text)
    ensures Parsed(KeyHead(command, key, trailing), r) ==
              (true, r.(cmdType := if name == "get" then CmdGet else CmdDelete, status := PsSucc,
                        key := Clip(key.text + Blanks(if trailing > 0 then trailing - 1 else 0))))
  {
    hide NextToken, ScannedKey, Command, InAnyCase, Shown, Clip;
    NamedWord(command, name);
    TokenBeforeWord(command, key, Blanks(trailing) + CRLF);
    KeyScanned(Closer(key), trailing);
  }

  /** The head gives its key back exactly when at most one space follows it, or when the key fills
      the field so that nothing else fits in. */
  lemma KeyRoundTrip(command: Word, name: string, key: Word, trailing: nat, r: Request)
    requires Names(command, name) && name in ["get", "delete"] && key.blanks > 0 && KeyOk(key.text)
    ensures Parsed(KeyHead(command, key, trailing), r).0
    ensures Parsed(KeyHead(command, key, trailing), r).1.cmdType == if name == "get" then CmdGet else CmdDelete
    ensures Parsed(KeyHead(command, key, trailing), r).1.key == key.text <==> trailing <= 1 || |key.text| == 250
  {
    hide Parsed, Names, KeyHead;
    KeyHeadParsed(command, name, key, trailing, r);
    var extra := Blanks(if trailing > 0 then trailing - 1 else 0);
    if trailing <= 1 {
      assert key.text + extra == key.text;
    }
  }

  /** A sync head is accepted exactly for index and all, a power head for halt. */
  lemma ControlHeads(command: Word, key: Word, trailing: nat, r: Request)
    requires key.blanks > 0 && KeyOk(key.text) && trailing <= 1
    ensures Names(command, "sync") ==>
              (Parsed(KeyHead(command, key, trailing), r).0 <==> InAnyCase(key.text, "index") || InAnyCase(key.text, "all"))
    ensures Names(command, "power") ==>
              (Parsed(KeyHead(command, key, trailing), r).0 <==> InAnyCase(key.text, "halt"))
  {
    hide NextToken, ScannedKey, Command, InAnyCase, Shown, SameIgnoringCase;
    if Names(command, "sync") { NamedWord(command, "sync"); ControlParsed(command, key, trailing, r); }
    if Names(command, "power") { NamedWord(command, "power"); ControlParsed(command, key, trailing, r); }
    AnyCaseIff(key.text, "index");
    AnyCaseIff(key.text, "all");
    AnyCaseIff(key.text, "halt");
  }

  lemma ControlParsed(command: Word, key: Word, trailing: nat, r: Request)
    requires WordOk(command) && key.blanks > 0 && KeyOk(key.text) && trailing <= 1
    ensures Command(command.text) == CmdSync ==>
              Parsed(KeyHead(command, key, trailing), r).0 == (SameIgnoringCase(key.text, "index") || SameIgnoringCase(key.text, "all"))
    ensures Command(command.text) == CmdPower ==>
              Parsed(KeyHead(command, key, trailing), r).0 == SameIgnoringCase(key.text, "halt")
  {
    hide NextToken, ScannedKey, Command, Shown, SameIgnoringCase;
    TokenBeforeWord(command, key, Blanks(trailing) + CRLF);
    KeyScanned(Closer(key), trailing);
    assert key.text + Blanks(0) == key.text;
  }

  // ---------- set ----------

  /** `set <key> <flags> <exptime> <bytes>` with any spaces around, then the line end. */
  function SetHead(command: Word, key: Word, flag: Word, exptime: Word, size: Word, trailing: nat): string {
    Shown(command) + (Shown(key) + (Shown(flag) + (Shown(exptime) + (Shown(size) + Blanks(trailing)))) + CRLF)
  }

  /** The four words behind the command. */
  lemma SetBody(key: Word, flag: Word, exptime: Word, size: Word, trailing: nat, r: Request)
    requires KeyOk(key.text) && WordOk(flag) && WordOk(exptime) && WordOk(size)
    requires flag.blanks > 0 && exptime.blanks > 0 && size.blanks > 0
    ensures AfterCommand(Shown(key) + (Shown(flag) + (Shown(exptime) + (Shown(size) + Blanks(trailing)))), r) ==
              (true, r.(key := key.text, flag := Atoi(flag.text), exptime := Atoi(exptime.text),
                        dataSize := Atoi(size.text) % 0x1_0000_0000_0000_0000))
  {
    hide NextToken, Shown, Atoi;
    var s4 := Shown(size) + Blanks(trailing);
    var s3 := Shown(exptime) + s4;
    TokenBeforeWord(key, flag, s3);
    TokenBeforeWord(Closer(flag), exptime, s4);
    TokenBeforeWord(Closer(exptime), size, Blanks(trailing));
    TokenIsWord(Closer(size), Blanks(trailing));
  }

  /** A set head gives back its command, key and numbers, in any letter case and with any number
      of spaces between the words and at the end. */
  lemma SetRoundTrip(command: Word, key: Word, flag: int, f: nat, exptime: int, e: nat, size: nat, z: nat, trailing: nat, r: Request)
    requires Names(command, "set") && key.blanks > 0 && KeyOk(key.text) && f > 0 && e > 0 && z > 0
    requires size < 0x8000_0000_0000_0000
    ensures Parsed(SetHead(command, key, Word(f, Number(flag)), Word(e, Number(exptime)), Word(z, Number(size)), trailing), r) ==
              (true, r.(cmdType := CmdSet, status := PsSucc, key := key.text, flag := flag, exptime := exptime, dataSize := size))
  {
    hide NextToken, Command, InAnyCase, Shown, Number, Atoi, AfterCommand;
    NumberRoundTrip(flag);
    NumberRoundTrip(exptime);
    NumberRoundTrip(size);
    NamedWord(command, "set");
    var fw, ew, zw := Word(f, Number(flag)), Word(e, Number(exptime)), Word(z, Number(size));
    var tail := Shown(fw) + (Shown(ew) + (Shown(zw) + Blanks(trailing)));
    var rest := Shown(Closer(key)) + tail + CRLF;
    assert SetHead(command, key, fw, ew, zw, trailing) == Shown(command) + (Shown(key) + (tail + CRLF));
    TokenBeforeWord(command, key, tail + CRLF);
    assert Shown(Closer(key)) + (tail + CRLF) == rest;
    assert EndsCrLf(rest) && rest[..|rest| - 2] == Shown(Closer(key)) + tail;
    SetBody(Closer(key), fw, ew, zw, trailing, r.(cmdType := CmdUnknown));
  }

  // ---------- heads that are refused ----------

  lemma BlanksOnly(n: nat)
    ensures NextToken(Blanks(n)) == None
  {
    SkipBlanks(n, "");
    assert Blanks(n) + "" == Blanks(n);
  }

  /** With a number missing, or more than one, a set head is refused. */
  lemma SetMissing(key: Word, flag: Word, exptime: Word, trailing: nat, r: Request)
    requires KeyOk(key.text) && WordOk(flag) && WordOk(exptime) && flag.blanks > 0 && exptime.blanks > 0
    ensures !AfterCommand(Blanks(trailing), r).0
    ensures !AfterCommand(Shown(key) + Blanks(trailing), r).0
    ensures !AfterCommand(Shown(key) + (Shown(flag) + Blanks(trailing)), r).0
    ensures !AfterCommand(Shown(key) + (Shown(flag) + (Shown(exptime) + Blanks(trailing))), r).0
  {
    hide NextToken, Shown, Atoi;
    BlanksOnly(trailing);
    BlanksOnly(if trailing > 0 then trailing - 1 else 0);
    OneSpaceLess(trailing);
    TokenIsWord(key, Blanks(trailing));
    TokenBeforeWord(key, flag, Blanks(trailing));
    TokenIsWord(Closer(flag), Blanks(trailing));
    TokenBeforeWord(key, flag, Shown(exptime) + Blanks(trailing));
    TokenBeforeWord(Closer(flag), exptime, Blanks(trailing));
    TokenIsWord(Closer(exptime), Blanks(trailing));
  }

  lemma OneSpaceLess(n: nat)
    ensures n > 0 ==> Blanks(n)[1..] == Blanks(n - 1)
  {
  }

  /** A key above 250 bytes: set refuses it. */
  lemma SetLongKey(command: Word, key: Word, rest: string, r: Request)
    requires Names(command, "set") && key.blanks > 0 && |key.text| > 250 && WordOk(key) && (rest == "" || rest[0] == ' ')
    ensures !Parsed(Shown(command) + (Shown(key) + (rest + CRLF)), r).0
  {
    hide NextToken, Shown, Command, InAnyCase, Atoi;
    NamedWord(command, "set");
    TokenBeforeWord(command, key, rest + CRLF);
    var s := Shown(Closer(key)) + (rest + CRLF);
    assert EndsCrLf(s) && s[..|s| - 2] == Shown(Closer(key)) + rest;
    TokenIsWord(Closer(key), rest);
  }

  /** Get and delete cut it to its first 250 bytes. */
  lemma KeyLongKey(command: Word, name: string, key: Word, r: Request)
    requires Names(command, name) && name in ["get", "delete"] && key.blanks > 0 && |key.text| > 250 && WordOk(key)
    ensures Parsed(Shown(command) + (Shown(key) + CRLF), r).0
    ensures Parsed(Shown(command) + (Shown(key) + CRLF), r).1.key == key.text[..250]
  {
    hide NextToken, Shown, Command, InAnyCase, ScannedKey;
    NamedWord(command, name);
    TokenBeforeWord(command, key, CRLF);
    LongKeyScanned(Closer(key));
  }

  lemma LongKeyScanned(w: Word)
    requires |w.text| > 250 && WordOk(w)
    ensures ScannedKey(Shown(w) + CRLF) == Some(w.text[..250])
  {
    hide Skip;
    var s := w.text + CRLF;
    assert Shown(w) + CRLF == Blanks(w.blanks) + s;
    SkipBlanks(w.blanks, s);
    assert EndsCrLf(s) && s[..|s| - 2] == w.text;
    assert s[|s| - 3] == w.text[|w.text| - 1];
  }

  /** A head that does not end in a carriage return and a line feed is refused. */
  lemma NoLineEnd(text: string, r: Request)
    requires !EndsCrLf(text)
    ensures !Parsed(text, r).0
  {
    hide SameIgnoringCase, Command, Clip;
    if NextToken(text).Some? {
      RestIsSuffix(text);
      var rest := NextToken(text).value.1;
      SkipIsSuffix(rest);
    }
  }

  lemma RestIsSuffix(text: string)
    requires NextToken(text).Some?
    ensures EndsCrLf(NextToken(text).value.1) ==> EndsCrLf(text)
  {
    SkipIsSuffix(text);
  }

  lemma {:induction false} SkipIsSuffix(text: string)
    ensures EndsCrLf(Skip(text)) ==> EndsCrLf(text)
    ensures |Skip(text)| <= |text|
    decreases |text|
  {
    if text != "" && text[0] == ' ' { SkipIsSuffix(text[1..]); }
  }

  /** A head that fits the buffer is read from it as it was written. */
  lemma HeadInBuffer(buf: seq<char>, text: string)
    requires |buf| == 512 && |text| < 512
    requires NUL !in text && buf[..|text|] == text && (|text| < 511 ==> buf[|text|] == NUL)
    ensures CString(buf[..511]) == text
  {
    var s := buf[..511];
    CStringIs(s);
    var t := CString(s);
    assert s[..|text|] == text;
    assert forall i :: 0 <= i < |text| ==> s[i] == text[i] && text[i] != NUL;
    assert forall i :: 0 <= i < |t| ==> s[i] == t[i] && t[i] != NUL;
    assert |t| == |text|;
  }
}
