/** The Redis wire format (ttd/internal/queue/redis.go): the request writer and the reply reader.
    Arrays and bulk strings are those of the RESP specification. */
module Resp {
  import opened Collections
  import opened Text

  newtype byte = x: int | 0 <= x < 256

  type Bytes = seq<byte>

  const CR: byte := 13
  const LF: byte := 10
  const MAX_INT: int := 0x7fff_ffff_ffff_ffff

  /** What `readRESP` returns: a string for simple and bulk strings, an integer, nothing for a
      null, or a list. */
  datatype Value = Str(bytes: Bytes) | Int(n: int) | Nil | Arr(items: seq<Value>)

  /** Why nothing could be read: the server sent an error, or the bytes are not a reply, or the
      length of a bulk string with its end overflows and the reader panics. */
  datatype Fault = ErrorReply(message: Bytes) | Malformed | Panic

  /** After an error reply the bytes behind it are still unread. */
  datatype Parsed<T> = Ok(value: T, rest: Bytes) | Failed(fault: Fault, rest: Bytes)

  function Fails<T>(fault: Fault, unread: Bytes): Parsed<T> {
    Failed(fault, if fault.ErrorReply? then unread else [])
  }

  function Ascii(s: string): Bytes
    requires forall i | 0 <= i < |s| :: s[i] as int < 256
  {
    seq(|s|, i requires 0 <= i < |s| => s[i] as int as byte)
  }

  function Chars(b: Bytes): string {
    seq(|b|, i requires 0 <= i < |b| => b[i] as int as char)
  }

  // ---------------------------------------------------------------- writing

  function Count(n: nat): Bytes {
    Ascii(Digits(n))
  }

  /** `$<length>` CR LF `<bytes>` CR LF. */
  function EncodePart(part: Bytes): Bytes {
    ['$' as int as byte] + Count(|part|) + [CR, LF] + part + [CR, LF]
  }

  function EncodeParts(parts: seq<Bytes>): Bytes {
    if parts == [] then [] else EncodePart(parts[0]) + EncodeParts(parts[1..])
  }

  /** `*<count>` CR LF and then every part. */
  function EncodeCommand(parts: seq<Bytes>): Bytes {
    ['*' as int as byte] + Count(|parts|) + [CR, LF] + EncodeParts(parts)
  }

  lemma {:induction false} EncodePartsAppend(parts: seq<Bytes>, part: Bytes)
    ensures EncodeParts(parts + [part]) == EncodeParts(parts) + EncodePart(part)
  {
    if parts == [] {
      assert EncodeParts([part]) == EncodePart(part) + EncodeParts([]);
    } else {
      EncodePartsAppend(parts[1..], part);
      assert (parts + [part])[1..] == parts[1..] + [part];
      ConcatAssociates(EncodePart(parts[0]), EncodeParts(parts[1..]), EncodePart(part));
    }
  }

  lemma PartBytes(part: Bytes, digit: byte)
    requires |part| < 10 && digit as int == 48 + |part|
    ensures EncodePart(part) == [36, digit, 13, 10] + part + [13, 10]
  {
    assert Digits(|part|) == [('0' as int + |part|) as char];
  }

  /** `GET k` on the wire. */
  lemma CommandBytesExample()
    ensures EncodeCommand([[71, 69, 84], [107]])
            == [42, 50, 13, 10] + ([36, 51, 13, 10, 71, 69, 84, 13, 10] + [36, 49, 13, 10, 107, 13, 10])
  {
    PartBytes([71, 69, 84], 51);
    PartBytes([107], 49);
    var parts: seq<Bytes> := [[71, 69, 84], [107]];
    assert parts[1..] == [[107]] && parts[1..][1..] == [];
    assert EncodeParts(parts[1..]) == EncodePart([107]) + [];
    assert Digits(2) == "2";
  }

  method WriteCommand(command: Bytes, args: seq<Bytes>) returns (out: Bytes)
    ensures out == EncodeCommand([command] + args)
  {
    var parts := [command] + args;
    var header := ['*' as int as byte] + Count(|parts|) + [CR, LF];
    out := header;
    for i := 0 to |parts|
      invariant out == header + EncodeParts(parts[..i])
    {
      EncodePartsAppend(parts[..i], parts[i]);
      assert parts[..i + 1] == parts[..i] + [parts[i]];
      out := out + EncodePart(parts[i]);
    }
    assert parts[..|parts|] == parts;
  }

  // ---------------------------------------------------------------- reading

  /** The position of the first line feed, or -1. */
  function LineFeed(s: Bytes): (i: int)
    ensures -1 <= i < |s|
    ensures i >= 0 ==> s[i] == LF && LF !in s[..i]
    ensures i < 0 ==> LF !in s
  {
    if s == [] then -1
    else if s[0] == LF then 0
    else
      var i := LineFeed(s[1..]);
      if i < 0 then -1
      else
        assert s[..i + 1] == [s[0]] + s[1..][..i];
        i + 1
  }

  function TrimCR(line: Bytes): Bytes {
    if line != [] && line[|line| - 1] == CR then line[..|line| - 1] else line
  }

  /** Reads through the next line feed; the line comes without its LF and one CR before it. */
  function ReadLine(s: Bytes): (r: Parsed<Bytes>)
    ensures r.Ok? ==> |r.rest| < |s|
  {
    var i := LineFeed(s);
    if i < 0 then Failed(Malformed, []) else Ok(TrimCR(s[..i]), s[i + 1..])
  }

  predicate IsNumeral(s: string) {
    s != [] && forall i | 0 <= i < |s| :: IsDigit(s[i])
  }

  /** `strconv.Atoi`: an optional sign and digits, within 64 bits. */
  function Atoi(line: Bytes): Option<int> {
    var s := Chars(line);
    var negative := s != [] && s[0] == '-';
    var digits := if s != [] && (s[0] == '-' || s[0] == '+') then s[1..] else s;
    if !IsNumeral(digits) then None
    else
      var n: int := Numeral(digits);
      if negative then (if n <= MAX_INT + 1 then Some(-n) else None)
      else if n <= MAX_INT then Some(n) else None
  }

  function ParseInt(line: Bytes, rest: Bytes): Parsed<Value> {
    match Atoi(line)
    case None => Failed(Malformed, [])
    case Some(n) => Ok(Int(n), rest)
  }

  function AsArray(r: Parsed<seq<Value>>): Parsed<Value> {
    match r
    case Failed(fault, unread) => Failed(fault, unread)
    case Ok(items, rest) => Ok(Arr(items), rest)
  }

  function Parse(s: Bytes): (r: Parsed<Value>)
    ensures r.Ok? ==> |r.rest| < |s|
    ensures r.Failed? ==> r == Fails(r.fault, r.rest)
    decreases |s|, 0
  {
    if s == [] then Failed(Malformed, [])
    else
      match ReadLine(s[1..])
      case Failed(fault, unread) => Failed(fault, unread)
      case Ok(line, rest) =>
        var prefix := s[0] as int as char;
        if prefix == '+' then Ok(Str(line), rest)
        else if prefix == '-' then Failed(ErrorReply(line), rest)
        else if prefix == ':' then ParseInt(line, rest)
        else if prefix == '$' then ParseBulk(line, rest)
        else if prefix == '*' then
          match Atoi(line)
          case None => Failed(Malformed, [])
          case Some(n) =>
            if n < -1 then Failed(Malformed, [])
            else if n == -1 then Ok(Nil, rest)
            else AsArray(ParseMany(n, rest))
        else Failed(Malformed, [])
  }

  /** Takes the announced number of bytes and two more, whatever those two are. */
  function ParseBulk(line: Bytes, rest: Bytes): (r: Parsed<Value>)
    ensures r.Ok? ==> |r.rest| <= |rest|
  {
    match Atoi(line)
    case None => Failed(Malformed, [])
    case Some(n) =>
      if n < -1 then Failed(Malformed, [])
      else if n == -1 then Ok(Nil, rest)
      else if n + 2 > MAX_INT then Failed(Panic, [])
      else if |rest| < n + 2 then Failed(Malformed, [])
      else Ok(Str(rest[..n]), rest[n + 2..])
  }

  /** An error among the items is the fault of the whole list. */
  function ParseMany(n: nat, s: Bytes): (r: Parsed<seq<Value>>)
    ensures r.Ok? ==> |r.rest| <= |s| && |r.value| == n
    ensures r.Failed? ==> r == Fails(r.fault, r.rest)
    decreases |s|, 1, n
  {
    if n == 0 then Ok([], s)
    else
      match Parse(s)
      case Failed(fault, unread) => Failed(fault, unread)
      case Ok(first, rest) =>
        match ParseMany(n - 1, rest)
        case Failed(fault, unread) => Failed(fault, unread)
        case Ok(others, rest) => Ok([first] + others, rest)
  }

  // ---------------------------------------------------------------- what the reader takes

  predicate IsDecimal(digits: string) {
    |digits| > 0 && forall i | 0 <= i < |digits| :: '0' <= digits[i] <= '9'
  }

  /** A sign or none, and then the digits of `n` without it. */
  predicate Spells(line: Bytes, sign: string, digits: string, n: int) {
    && Chars(line) == sign + digits && IsDecimal(digits)
    && match sign
       case "" => n == Numeral(digits)
       case "+" => n == Numeral(digits)
       case "-" => -n == Numeral(digits)
       case _ => false
  }

  ghost predicate Denotes(line: Bytes, n: int) {
    exists sign: string, digits: string :: Spells(line, sign, digits, n)
  }

  lemma AtoiOfSpelled(line: Bytes, sign: string, digits: string, n: int)
    requires Spells(line, sign, digits, n)
    ensures Atoi(line) == if -0x8000_0000_0000_0000 <= n <= 0x7fff_ffff_ffff_ffff then Some(n) else None
  {
    var s := Chars(line);
    if sign == "" {
      assert s == digits;
      assert '0' <= s[0] <= '9';
    } else {
      assert s[0] == sign[0] && s[1..] == digits;
    }
  }

  lemma AtoiSpells(line: Bytes)
    requires Atoi(line).Some?
    ensures Denotes(line, Atoi(line).value)
  {
    var s := Chars(line);
    var signed := s != [] && (s[0] == '-' || s[0] == '+');
    var sign, digits := if signed then [s[0]] else "", if signed then s[1..] else s;
    assert s == sign + digits;
    assert Spells(line, sign, digits, Atoi(line).value);
  }

  /** A line is read as a number exactly when it denotes one of 64 bits. */
  lemma AtoiIff(line: Bytes, n: int)
    ensures Atoi(line) == Some(n) <==> Denotes(line, n) && -0x8000_0000_0000_0000 <= n <= 0x7fff_ffff_ffff_ffff
  {
    if Denotes(line, n) {
      var sign, digits :| Spells(line, sign, digits, n);
      AtoiOfSpelled(line, sign, digits, n);
    }
    if Atoi(line) == Some(n) {
      AtoiSpells(line);
      var sign, digits :| Spells(line, sign, digits, n);
      AtoiOfSpelled(line, sign, digits, n);
    }
  }

  /** A line ends at its line feed, and one carriage return before that is not part of it. */
  lemma LineIs(text: Bytes, rest: Bytes)
    requires LF !in text
    ensures ReadLine(text + [10] + rest)
            == Ok(if |text| > 0 && text[|text| - 1] == 13 then text[..|text| - 1] else text, rest)
    ensures ReadLine(text) == Failed(Malformed, [])
  {
    var s := text + [10] + rest;
    LineFeedIs(s, |text|);
    assert s[..|text|] == text && s[|text| + 1..] == rest;
  }

  /** What the reader makes of a first byte, a line and the bytes behind it, for all three.  `n` is
      the 64-bit number that the line denotes, if it does. */
  lemma ReaderDecides(s: Bytes, line: Bytes, rest: Bytes) returns (n: Option<int>)
    requires s != [] && ReadLine(s[1..]) == Ok(line, rest)
    ensures forall m: int | -0x8000_0000_0000_0000 <= m <= 0x7fff_ffff_ffff_ffff :: Denotes(line, m) <==> n == Some(m)
    ensures n.Some? ==> -0x8000_0000_0000_0000 <= n.value <= 0x7fff_ffff_ffff_ffff
    ensures Parse(s) ==
              match s[0] as int as char
              case '+' => Ok(Str(line), rest)
              case '-' => Failed(ErrorReply(line), rest)
              case ':' => if n.Some? then Ok(Int(n.value), rest) else Failed(Malformed, [])
              case '$' =>
                if n.None? || n.value <= -2 then Failed(Malformed, [])
                else if n.value == -1 then Ok(Nil, rest)
                else if n.value > 0x7fff_ffff_ffff_fffd then Failed(Panic, [])
                else if |rest| >= n.value + 2 then Ok(Str(rest[..n.value]), rest[n.value + 2..])
                else Failed(Malformed, [])
              case '*' =>
                if n.None? || n.value <= -2 then Failed(Malformed, [])
                else if n.value == -1 then Ok(Nil, rest)
                else AsArray(ParseMany(n.value, rest))
              case _ => Failed(Malformed, [])
  {
    n := Atoi(line);
    forall m: int | -0x8000_0000_0000_0000 <= m <= 0x7fff_ffff_ffff_ffff
      ensures Denotes(line, m) <==> n == Some(m)
    {
      AtoiIff(line, m);
    }
    if n.Some? {
      AtoiIff(line, n.value);
    }
  }

  /** A buffered reader over the bytes that the server sends. */
  class Reader {
    var unread: Bytes

    constructor (data: Bytes)
      ensures unread == data
    {
      unread := data;
    }

    method ReadByte() returns (ok: bool, b: byte)
      modifies this
      ensures ok == (old(unread) != [])
      ensures ok ==> b == old(unread)[0] && unread == old(unread)[1..]
    {
      if unread == [] {
        return false, 0;
      }
      b, unread, ok := unread[0], unread[1..], true;
    }

    method ReadTrimmedLine() returns (ok: bool, line: Bytes)
      modifies this
      ensures ok == ReadLine(old(unread)).Ok?
      ensures ok ==> line == ReadLine(old(unread)).value && unread == ReadLine(old(unread)).rest
    {
      var i := LineFeed(unread);
      if i < 0 {
        return false, [];
      }
      line := unread[..i];
      unread := unread[i + 1..];
      if line != [] && line[|line| - 1] == CR {
        line := line[..|line| - 1];
      }
      ok := true;
    }

    method ReadFull(n: nat) returns (ok: bool, data: Bytes)
      modifies this
      ensures ok == (n <= |old(unread)|)
      ensures ok ==> data == old(unread)[..n] && unread == old(unread)[n..]
    {
      if n > |unread| {
        return false, [];
      }
      data, unread, ok := unread[..n], unread[n..], true;
    }

    /** Reads one reply: the value it stands for, with exactly its bytes gone, or the fault, with
        everything up to and including an error line gone. */
    method ReadRESP() returns (fault: Option<Fault>, v: Value)
      modifies this
      ensures Parse(old(unread)) == if fault.None? then Ok(v, unread) else Fails(fault.value, unread)
      ensures fault.None? ==> |unread| < |old(unread)|
      decreases |unread|, 0
    {
      fault, v := Some(Malformed), Nil;
      var some, prefix := ReadByte();
      if !some {
        return;
      }
      var got, line := ReadTrimmedLine();
      if !got {
        return;
      }
      var c := prefix as int as char;
      if c == '+' {
        return None, Str(line);
      } else if c == '-' {
        return Some(ErrorReply(line)), Nil;
      } else if c == ':' {
        var n := Atoi(line);
        if n.Some? {
          return None, Int(n.value);
        }
      } else if c == '$' {
        var n := Atoi(line);
        if n.None? || n.value < -1 {
          return;
        }
        if n.value == -1 {
          return None, Nil;
        }
        fault, v := ReadBulk(n.value);
      } else if c == '*' {
        var n := Atoi(line);
        if n.None? || n.value < -1 {
          return;
        }
        if n.value == -1 {
          return None, Nil;
        }
        ghost var whole := ParseMany(n.value, unread);
        PrependNothing(whole);
        var failed, items := ReadItems(n.value, whole);
        return failed, if failed.None? then Arr(items) else Nil;
      }
    }

    /** Reads a bulk string of `n` bytes and the two bytes that end it. */
    method ReadBulk(n: nat) returns (fault: Option<Fault>, v: Value)
      modifies this
      ensures fault == if n + 2 > MAX_INT then Some(Panic) else if n + 2 <= |old(unread)| then None else Some(Malformed)
      ensures fault.None? ==> v == Str(old(unread)[..n]) && unread == old(unread)[n + 2..]
    {
      if n + 2 > MAX_INT {
        return Some(Panic), Nil;
      }
      var full, data := ReadFull(n + 2);
      if !full {
        return Some(Malformed), Nil;
      }
      assert old(unread)[..n + 2][..n] == old(unread)[..n];
      return None, Str(data[..n]);
    }

    method ReadItem(ghost whole: Parsed<seq<Value>>, items: seq<Value>, left: nat)
        returns (fault: Option<Fault>, v: Value)
      requires left > 0 && Remaining(whole, items, left, unread)
      modifies this
      ensures fault.None? ==> Remaining(whole, items + [v], left - 1, unread) && |unread| < |old(unread)|
      ensures fault.Some? ==> whole == Fails(fault.value, unread)
      decreases |unread|, 1
    {
      RemainingStep(whole, items, left, unread);
      fault, v := ReadRESP();
    }

    /** The loop that fills an array reply, up to the first fault. */
    method ReadItems(n: nat, ghost whole: Parsed<seq<Value>>) returns (fault: Option<Fault>, items: seq<Value>)
      requires Remaining(whole, [], n, unread)
      modifies this
      ensures whole == if fault.None? then Ok(items, unread) else Fails(fault.value, unread)
      decreases |unread|, 2
    {
      ghost var size := |unread|;
      items := [];
      while |items| < n
        invariant |items| <= n && |unread| <= size
        invariant Remaining(whole, items, n - |items|, unread)
        decreases n - |items|
      {
        var v: Value;
        fault, v := ReadItem(whole, items, n - |items|);
        if fault.Some? {
          return;
        }
        items := items + [v];
      }
      RemainingDone(whole, items, unread);
      fault := None;
    }
  }

  /** Once `items` have been read, the `left` replies at the front of `unread` complete them. */
  ghost predicate Remaining(whole: Parsed<seq<Value>>, items: seq<Value>, left: nat, unread: Bytes) {
    whole == Prepended(items, ParseMany(left, unread))
  }

  lemma RemainingStep(whole: Parsed<seq<Value>>, items: seq<Value>, left: nat, unread: Bytes)
    requires left > 0 && Remaining(whole, items, left, unread)
    ensures match Parse(unread)
            case Failed(fault, rest) => whole == Failed(fault, rest)
            case Ok(v, rest) => Remaining(whole, items + [v], left - 1, rest)
  {
    PrependOneMore(items, left, unread);
  }

  lemma RemainingDone(whole: Parsed<seq<Value>>, items: seq<Value>, unread: Bytes)
    requires Remaining(whole, items, 0, unread)
    ensures whole == Ok(items, unread)
  {
    assert items + [] == items;
  }

  function Prepended(items: seq<Value>, r: Parsed<seq<Value>>): Parsed<seq<Value>> {
    match r
    case Failed(fault, unread) => Failed(fault, unread)
    case Ok(others, rest) => Ok(items + others, rest)
  }

  lemma PrependNothing(r: Parsed<seq<Value>>)
    ensures Prepended([], r) == r
  {
    assert r.Ok? ==> [] + r.value == r.value;
  }

  lemma PrependOneMore(items: seq<Value>, n: nat, s: Bytes)
    requires n > 0
    ensures Prepended(items, ParseMany(n, s)) ==
            match Parse(s)
            case Failed(fault, unread) => Failed(fault, unread)
            case Ok(v, rest) => Prepended(items + [v], ParseMany(n - 1, rest))
  {
    var first := Parse(s);
    if first.Ok? && ParseMany(n - 1, first.rest).Ok? {
      var others := ParseMany(n - 1, first.rest).value;
      assert items + ([first.value] + others) == items + [first.value] + others;
    }
  }

  // ---------------------------------------------------------------- round trip

  lemma CharsOfAscii(s: string)
    requires forall i | 0 <= i < |s| :: s[i] as int < 256
    ensures Chars(Ascii(s)) == s
  {
  }

  lemma AtoiOfCount(n: nat)
    requires n <= MAX_INT
    ensures Atoi(Count(n)) == Some(n)
  {
    CharsOfAscii(Digits(n));
    NumeralOfDigits(n);
    assert IsDigit(Digits(n)[0]);
  }

  /** A line comes back whole, whatever follows it, exactly when it holds no line feed. */
  lemma ReadBackLine(text: Bytes, rest: Bytes)
    ensures ReadLine(text + [CR, LF] + rest) == Ok(text, rest) <==> LF !in text
  {
    var s := text + [CR, LF] + rest;
    if LF !in text {
      LineFeedIs(s, |text| + 1);
      assert s[..|text| + 1] == text + [CR];
      assert s[|text| + 2..] == rest;
    } else {
      var i :| 0 <= i < |text| && text[i] == LF;
      assert s[i] == LF;
      assert LineFeed(s) <= i;
    }
  }

  lemma ReadCountLine(n: nat, rest: Bytes)
    ensures ReadLine(Count(n) + [CR, LF] + rest) == Ok(Count(n), rest)
  {
    CountIsPlain(n);
    ReadBackLine(Count(n), rest);
  }

  lemma {:induction false} LineFeedIs(s: Bytes, i: nat)
    requires i < |s| && s[i] == LF && forall j | 0 <= j < i :: s[j] != LF
    ensures LineFeed(s) == i
  {
    if i > 0 {
      LineFeedIs(s[1..], i - 1);
    }
  }

  lemma ParsePart(part: Bytes, rest: Bytes)
    requires |part| + 2 <= MAX_INT
    ensures Parse(EncodePart(part) + rest) == Ok(Str(part), rest)
  {
    var tail := part + [CR, LF] + rest;
    var s := EncodePart(part) + rest;
    assert s[1..] == Count(|part|) + [CR, LF] + tail;
    ReadCountLine(|part|, tail);
    AtoiOfCount(|part|);
    assert tail[..|part|] == part && tail[|part| + 2..] == rest;
  }

  function Strings(parts: seq<Bytes>): seq<Value> {
    if parts == [] then [] else [Str(parts[0])] + Strings(parts[1..])
  }

  lemma {:induction false} ParseParts(parts: seq<Bytes>, rest: Bytes)
    requires forall i | 0 <= i < |parts| :: |parts[i]| + 2 <= MAX_INT
    ensures ParseMany(|parts|, EncodeParts(parts) + rest) == Ok(Strings(parts), rest)
  {
    if parts == [] {
      assert EncodeParts(parts) + rest == rest;
    } else {
      var others := EncodeParts(parts[1..]) + rest;
      assert EncodeParts(parts) + rest == EncodePart(parts[0]) + others;
      ParsePart(parts[0], others);
      ParseParts(parts[1..], rest);
    }
  }

  /** Reading back any encoded command gives the same list of byte strings and consumes exactly
      the bytes that were written, also when the parts contain CR LF. */
  lemma CommandRoundTrip(parts: seq<Bytes>, rest: Bytes)
    requires |parts| <= MAX_INT && forall i | 0 <= i < |parts| :: |parts[i]| + 2 <= MAX_INT
    ensures Parse(EncodeCommand(parts) + rest) == Ok(Arr(Strings(parts)), rest)
  {
    var tail := EncodeParts(parts) + rest;
    assert EncodeCommand(parts) + rest == ['*' as int as byte] + (Count(|parts|) + [CR, LF] + tail);
    ParseHeader(|parts|, tail);
    ParseParts(parts, rest);
  }

  lemma ParseArrayLine(s: Bytes, line: Bytes, n: nat, tail: Bytes)
    requires s != [] && s[0] == '*' as int as byte && ReadLine(s[1..]) == Ok(line, tail) && Atoi(line) == Some(n)
    ensures Parse(s) == AsArray(ParseMany(n, tail))
  {
  }

  lemma ParseHeader(n: nat, tail: Bytes)
    requires n <= MAX_INT
    ensures Parse(['*' as int as byte] + (Count(n) + [CR, LF] + tail)) == AsArray(ParseMany(n, tail))
  {
    var line := Count(n) + [CR, LF] + tail;
    var s := ['*' as int as byte] + line;
    assert s[0] == '*' as int as byte && s[1..] == line;
    ReadCountLine(n, tail);
    AtoiOfCount(n);
    ParseArrayLine(s, Count(n), n, tail);
  }

  lemma {:induction false} StringsAreInjective(parts: seq<Bytes>, others: seq<Bytes>)
    requires Strings(parts) == Strings(others)
    ensures parts == others
  {
    if parts == [] {
      assert others == [] || |Strings(others)| > 0;
    } else {
      assert others != [];
      assert Strings(parts)[0] == Strings(others)[0];
      assert Strings(parts)[1..] == Strings(parts[1..]) && Strings(others)[1..] == Strings(others[1..]);
      StringsAreInjective(parts[1..], others[1..]);
      assert parts == [parts[0]] + parts[1..] && others == [others[0]] + others[1..];
    }
  }

  /** No encoded command is an initial part of another, so commands never run together. */
  lemma CommandsAreSelfDelimiting(parts: seq<Bytes>, others: seq<Bytes>, rest: Bytes, more: Bytes)
    requires |parts| <= MAX_INT && forall i | 0 <= i < |parts| :: |parts[i]| + 2 <= MAX_INT
    requires |others| <= MAX_INT && forall i | 0 <= i < |others| :: |others[i]| + 2 <= MAX_INT
    requires EncodeCommand(parts) + rest == EncodeCommand(others) + more
    ensures parts == others && rest == more
  {
    CommandRoundTrip(parts, rest);
    CommandRoundTrip(others, more);
    StringsAreInjective(parts, others);
  }

  // ---------------------------------------------------------------- every reply

  /** What a server can send. */
  datatype Reply =
    | Simple(text: Bytes)
    | Error(message: Bytes)
    | Integer(n: int)
    | Bulk(bytes: Bytes)
    | NullBulk
    | NullArray
    | Array(items: seq<Reply>)

  function Decimal(n: int): Bytes {
    if n < 0 then ['-' as int as byte] + Count(-n) else Count(n)
  }

  function Line(prefix: char, text: Bytes): Bytes
    requires prefix as int < 256
  {
    [prefix as int as byte] + (text + [CR, LF])
  }

  function Encode(r: Reply): Bytes
    decreases r
  {
    match r
    case Simple(text) => Line('+', text)
    case Error(message) => Line('-', message)
    case Integer(n) => Line(':', Decimal(n))
    case Bulk(bytes) => EncodePart(bytes)
    case NullBulk => Line('$', Decimal(-1))
    case NullArray => Line('*', Decimal(-1))
    case Array(items) => Line('*', Count(|items|)) + EncodeAll(items)
  }

  function EncodeAll(items: seq<Reply>): Bytes
    decreases items
  {
    if items == [] then [] else Encode(items[0]) + EncodeAll(items[1..])
  }

  /** What a reply says: a value, or the first error in it, with the part of the reply behind it. */
  datatype Meaning<T> = Says(value: T) | Complains(message: Bytes, behind: Bytes)

  function Together(first: Meaning<Value>, others: Meaning<seq<Value>>, more: Bytes): Meaning<seq<Value>> {
    match first
    case Complains(message, behind) => Complains(message, behind + more)
    case Says(value) =>
      match others
      case Complains(message, behind) => Complains(message, behind)
      case Says(values) => Says([value] + values)
  }

  function MeaningOf(r: Reply): Meaning<Value>
    decreases r
  {
    match r
    case Simple(text) => Says(Str(text))
    case Error(message) => Complains(message, [])
    case Integer(n) => Says(Int(n))
    case Bulk(bytes) => Says(Str(bytes))
    case NullBulk => Says(Nil)
    case NullArray => Says(Nil)
    case Array(items) =>
      match MeaningOfAll(items)
      case Says(values) => Says(Arr(values))
      case Complains(message, behind) => Complains(message, behind)
  }

  function MeaningOfAll(items: seq<Reply>): Meaning<seq<Value>>
    decreases items
  {
    if items == [] then Says([])
    else Together(MeaningOf(items[0]), MeaningOfAll(items[1..]), EncodeAll(items[1..]))
  }

  /** Lines hold no line feed, integers are 64-bit and lengths fit. */
  predicate IsLegal(r: Reply)
    decreases r
  {
    match r
    case Simple(text) => LF !in text
    case Error(message) => LF !in message
    case Integer(n) => -MAX_INT - 1 <= n <= MAX_INT
    case Bulk(bytes) => |bytes| + 2 <= MAX_INT
    case NullBulk => true
    case NullArray => true
    case Array(items) => |items| <= MAX_INT && AreLegal(items)
  }

  predicate AreLegal(items: seq<Reply>)
    decreases items
  {
    items == [] || (IsLegal(items[0]) && AreLegal(items[1..]))
  }

  function Understood<T>(m: Meaning<T>, rest: Bytes): Parsed<T> {
    match m
    case Says(v) => Ok(v, rest)
    case Complains(message, behind) => Failed(ErrorReply(message), behind + rest)
  }

  lemma CountIsPlain(n: nat)
    ensures LF !in Count(n) && '-' as int as byte !in Count(n)
  {
    var digits := Digits(n);
    forall i | 0 <= i < |digits|
      ensures Count(n)[i] != LF && Count(n)[i] != '-' as int as byte
    {
      assert IsDigit(digits[i]);
    }
  }

  lemma AtoiOfNegative(n: int)
    requires 0 < n <= MAX_INT + 1
    ensures Atoi(['-' as int as byte] + Count(n)) == Some(-n)
  {
    var digits, line := Digits(n), ['-' as int as byte] + Count(n);
    assert Chars(line) == "-" + digits;
    assert Chars(line)[1..] == digits;
    NumeralOfDigits(n);
  }

  lemma AtoiOfDecimal(n: int)
    requires -MAX_INT - 1 <= n <= MAX_INT
    ensures Atoi(Decimal(n)) == Some(n) && LF !in Decimal(n)
  {
    if n < 0 {
      CountIsPlain(-n);
      AtoiOfNegative(-n);
    } else {
      CountIsPlain(n);
      AtoiOfCount(n);
    }
  }

  /** A one-line reply is read by its prefix. */
  lemma ParseLine(prefix: char, text: Bytes, rest: Bytes)
    requires prefix as int < 256 && LF !in text
    ensures var s := Line(prefix, text) + rest;
            s != [] && s[0] == prefix as int as byte && ReadLine(s[1..]) == Ok(text, rest)
  {
    var s := Line(prefix, text) + rest;
    assert s[1..] == text + [CR, LF] + rest;
    ReadBackLine(text, rest);
  }

  /** Reading any legal reply gives what it says, nested arrays and errors included.  A value takes
      exactly the reply's bytes; an error anywhere in an array is the error of the whole, and the
      items behind it stay unread. */
  lemma {:induction false} ReplyRoundTrip(r: Reply, rest: Bytes)
    requires IsLegal(r)
    ensures Parse(Encode(r) + rest) == Understood(MeaningOf(r), rest)
    decreases r
  {
    match r
    case Simple(text) => SimpleRoundTripIff(text, rest);
    case Error(message) => ErrorRoundTrip(message, rest);
    case Integer(n) => IntegerRoundTrip(n, rest);
    case Bulk(bytes) => ParsePart(bytes, rest);
    case NullBulk => NullBulkRoundTrip(rest);
    case NullArray => NullArrayRoundTrip(rest);
    case Array(items) =>
      RepliesRoundTrip(items, rest);
      ArrayRoundTrip(items, rest);
  }

  lemma ErrorRoundTrip(message: Bytes, rest: Bytes)
    requires LF !in message
    ensures Parse(Encode(Error(message)) + rest) == Failed(ErrorReply(message), rest)
  {
    ParseLine('-', message, rest);
  }

  lemma EncodeArray(items: seq<Reply>, rest: Bytes)
    ensures Encode(Array(items)) + rest
            == ['*' as int as byte] + (Count(|items|) + [CR, LF] + (EncodeAll(items) + rest))
  {
    var head := Count(|items|) + [CR, LF];
    ConcatAssociates(head, EncodeAll(items), rest);
    ConcatAssociates(['*' as int as byte], head, EncodeAll(items));
    ConcatAssociates(['*' as int as byte], head + EncodeAll(items), rest);
  }

  lemma ArrayIsUnderstood(items: seq<Reply>, rest: Bytes)
    ensures AsArray(Understood(MeaningOfAll(items), rest)) == Understood(MeaningOf(Array(items)), rest)
  {
  }

  lemma ArrayRoundTrip(items: seq<Reply>, rest: Bytes)
    requires |items| <= MAX_INT
    requires ParseMany(|items|, EncodeAll(items) + rest) == Understood(MeaningOfAll(items), rest)
    ensures Parse(Encode(Array(items)) + rest) == Understood(MeaningOf(Array(items)), rest)
  {
    EncodeArray(items, rest);
    ParseHeader(|items|, EncodeAll(items) + rest);
    ArrayIsUnderstood(items, rest);
  }

  lemma IntegerRoundTrip(n: int, rest: Bytes)
    requires -MAX_INT - 1 <= n <= MAX_INT
    ensures Parse(Encode(Integer(n)) + rest) == Ok(Int(n), rest)
  {
    ParseNumberLine(':', n, rest);
  }

  lemma NullBulkRoundTrip(rest: Bytes)
    ensures Parse(Encode(NullBulk) + rest) == Ok(Nil, rest)
  {
    ParseNumberLine('$', -1, rest);
  }

  lemma NullArrayRoundTrip(rest: Bytes)
    ensures Parse(Encode(NullArray) + rest) == Ok(Nil, rest)
  {
    ParseNumberLine('*', -1, rest);
  }

  lemma ParseNumberLine(prefix: char, n: int, rest: Bytes)
    requires prefix as int < 256 && -MAX_INT - 1 <= n <= MAX_INT
    ensures var s := Line(prefix, Decimal(n)) + rest;
            && s != [] && s[0] == prefix as int as byte
            && ReadLine(s[1..]) == Ok(Decimal(n), rest) && Atoi(Decimal(n)) == Some(n)
  {
    AtoiOfDecimal(n);
    ParseLine(prefix, Decimal(n), rest);
  }

  function ParsedMore(first: Parsed<Value>, others: Parsed<seq<Value>>): Parsed<seq<Value>> {
    match first
    case Failed(fault, unread) => Failed(fault, unread)
    case Ok(value, _) => Prepended([value], others)
  }

  lemma UnderstandOneMore(first: Meaning<Value>, others: Meaning<seq<Value>>, more: Bytes, rest: Bytes)
    ensures ParsedMore(Understood(first, more + rest), Understood(others, rest))
            == Understood(Together(first, others, more), rest)
  {
    if first.Complains? {
      ConcatAssociates(first.behind, more, rest);
    }
  }

  lemma {:induction false} RepliesRoundTrip(items: seq<Reply>, rest: Bytes)
    requires AreLegal(items)
    ensures ParseMany(|items|, EncodeAll(items) + rest) == Understood(MeaningOfAll(items), rest)
    decreases items
  {
    if items == [] {
      assert EncodeAll(items) + rest == rest;
    } else {
      var more := EncodeAll(items[1..]);
      ConcatAssociates(Encode(items[0]), more, rest);
      ReplyRoundTrip(items[0], more + rest);
      RepliesRoundTrip(items[1..], rest);
      UnderstandOneMore(MeaningOf(items[0]), MeaningOfAll(items[1..]), more, rest);
      assert EncodeAll(items) + rest == Encode(items[0]) + (more + rest);
      assert ParseMany(|items|, Encode(items[0]) + (more + rest))
          == ParsedMore(Understood(MeaningOf(items[0]), more + rest), Understood(MeaningOfAll(items[1..]), rest));
    }
  }

  /** A simple string comes back exactly when it holds no line feed. */
  lemma SimpleRoundTripIff(text: Bytes, rest: Bytes)
    ensures Parse(Encode(Simple(text)) + rest) == Ok(Str(text), rest) <==> LF !in text
  {
    var s := Encode(Simple(text)) + rest;
    assert s[1..] == text + [CR, LF] + rest;
    ReadBackLine(text, rest);
  }
}
