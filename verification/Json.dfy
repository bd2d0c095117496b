/** The compact JSON text of an object of strings and natural numbers: string literals
    escaped as in section 7 of RFC 8259, no spaces, nothing beyond ASCII escaped.
    Parsing undoes it. */
module Json {
  import opened Common
  import opened Digits

  datatype Value = Str(text: string) | Num(number: nat)

  datatype Member = Member(name: string, value: Value)

  // ---- string literals

  /** The character after the backslash of a two-character escape. */
  function ShortEscape(c: char): Option<char> {
    match c
    case '\"' => Some('\"')
    case '\\' => Some('\\')
    case '\n' => Some('n')
    case '\r' => Some('r')
    case '\t' => Some('t')
    case _ => if c == 8 as char then Some('b') else if c == 12 as char then Some('f') else None
  }

  function EscapeChar(c: char): string {
    match ShortEscape(c)
    case Some(e) => ['\\', e]
    case None =>
      if c as int < 0x20 then ['\\', 'u', '0', '0', HexDigit(c as int / 16), HexDigit(c as int % 16)] else [c]
  }

  function Escape(s: string): string {
    if s == "" then "" else EscapeChar(s[0]) + Escape(s[1..])
  }

  function Unescape(e: char): Option<char> {
    match e
    case '\"' => Some('\"')
    case '\\' => Some('\\')
    case 'n' => Some('\n')
    case 'r' => Some('\r')
    case 't' => Some('\t')
    case 'b' => Some(8 as char)
    case 'f' => Some(12 as char)
    case _ => None
  }

  /** One character of a literal and the text after it; None at the closing quote. */
  function ReadChar(s: string): (r: Option<(char, string)>)
    ensures r.Some? ==> |r.value.1| < |s|
  {
    if s == "" || s[0] == '\"' then None
    else if s[0] != '\\' then Some((s[0], s[1..]))
    else if |s| < 2 then None
    else if s[1] == 'u' then
      if |s| < 6 || s[2] != '0' || s[3] != '0' || !IsHex(s[4]) || !IsHex(s[5]) then None
      else Some(((HexValue(s[4]) * 16 + HexValue(s[5])) as char, s[6..]))
    else
      match Unescape(s[1])
      case None => None
      case Some(c) => Some((c, s[2..]))
  }

  /** The rest of a literal, and the text after its closing quote. */
  function ReadLiteral(s: string): (r: Option<(string, string)>)
    ensures r.Some? ==> |r.value.1| < |s|
    decreases |s|
  {
    if s != "" && s[0] == '\"' then Some(("", s[1..]))
    else
      match ReadChar(s)
      case None => None
      case Some((c, tail)) =>
        match ReadLiteral(tail)
        case None => None
        case Some((text, rest)) => Some(([c] + text, rest))
  }

  lemma ReadCharUndoes(c: char, rest: string)
    ensures var s := EscapeChar(c) + rest; s[0] != '\"' && ReadChar(s) == Some((c, rest))
  {
  }

  /** Only quotes, backslashes and control characters are escaped, the control characters
      that have a name by one letter. */
  lemma EscapeLength(c: char)
    ensures |EscapeChar(c)| == if c in {'\"', '\\', '\n', '\r', '\t', 8 as char, 12 as char} then 2
                               else if c < 0x20 as char then 6 else 1
  {
  }

  lemma {:induction false} ReadLiteralUndoes(s: string, rest: string)
    ensures ReadLiteral(Escape(s) + "\"" + rest) == Some((s, rest))
  {
    if s == "" {
      assert Escape(s) + "\"" + rest == "\"" + rest;
    } else {
      var tail := Escape(s[1..]) + "\"" + rest;
      assert Escape(s) + "\"" + rest == EscapeChar(s[0]) + tail;
      ReadCharUndoes(s[0], tail);
      ReadLiteralUndoes(s[1..], rest);
      hide ReadChar, EscapeChar;
      assert s == [s[0]] + s[1..];
    }
  }

  // ---- numbers

  /** The longest run of digits at the front, and what follows it. */
  function ReadDigits(s: string): (r: (string, string))
    ensures AllDigits(r.0) && r.0 + r.1 == s
  {
    if s == "" || !IsDigit(s[0]) then ("", s)
    else
      var (digits, rest) := ReadDigits(s[1..]);
      ([s[0]] + digits, rest)
  }

  lemma {:induction false} ReadDigitsUndoes(digits: string, rest: string)
    requires AllDigits(digits) && (rest == "" || !IsDigit(rest[0]))
    ensures ReadDigits(digits + rest) == (digits, rest)
  {
    if digits == "" {
      assert digits + rest == rest;
    } else {
      assert (digits + rest)[1..] == digits[1..] + rest;
      ReadDigitsUndoes(digits[1..], rest);
      assert digits == [digits[0]] + digits[1..];
    }
  }

  // ---- members and objects

  function ValueText(v: Value): string {
    match v
    case Str(s) => "\"" + Escape(s) + "\""
    case Num(n) => Decimal(n)
  }

  function ReadValue(s: string): (r: Option<(Value, string)>)
    ensures r.Some? ==> |r.value.1| < |s|
  {
    if s == "" then None
    else if s[0] == '\"' then
      match ReadLiteral(s[1..])
      case None => None
      case Some((text, rest)) => Some((Str(text), rest))
    else
      var (digits, rest) := ReadDigits(s);
      if digits == "" then None else
        assert |s| == |digits| + |rest|;
        Some((Num(Digits.Value(digits)), rest))
  }

  lemma ReadValueUndoes(v: Value, rest: string)
    requires rest == "" || !IsDigit(rest[0])
    ensures ReadValue(ValueText(v) + rest) == Some((v, rest))
  {
    match v
    case Str(text) =>
      ReadLiteralUndoes(text, rest);
      assert (ValueText(v) + rest)[1..] == Escape(text) + "\"" + rest;
    case Num(n) =>
      ReadDigitsUndoes(Decimal(n), rest);
      DecimalValue(n);
      assert IsDigit(Decimal(n)[0]);
  }

  function MemberText(m: Member): string {
    "\"" + Escape(m.name) + "\":" + ValueText(m.value)
  }

  function ReadMember(s: string): (r: Option<(Member, string)>)
    ensures r.Some? ==> |r.value.1| < |s|
  {
    if s == "" || s[0] != '\"' then None
    else
      match ReadLiteral(s[1..])
      case None => None
      case Some((name, rest)) =>
        if rest == "" || rest[0] != ':' then None
        else
          match ReadValue(rest[1..])
          case None => None
          case Some((value, after)) => Some((Member(name, value), after))
  }

  lemma ReadMemberUndoes(m: Member, rest: string)
    requires rest == "" || !IsDigit(rest[0])
    ensures ReadMember(MemberText(m) + rest) == Some((m, rest))
  {
    var after := ":" + (ValueText(m.value) + rest);
    assert MemberText(m) + rest == "\"" + (Escape(m.name) + "\"" + after);
    ReadLiteralUndoes(m.name, after);
    ReadValueUndoes(m.value, rest);
    assert after[1..] == ValueText(m.value) + rest;
    hide ReadLiteral, ReadValue, Escape, ValueText;
  }

  /** The members of an object, comma-separated, up to and including its closing brace. */
  function MembersText(ms: seq<Member>): (s: string)
    requires ms != []
    ensures s != ""
  {
    if |ms| == 1 then MemberText(ms[0]) + "}" else MemberText(ms[0]) + ("," + MembersText(ms[1..]))
  }

  function ObjectText(ms: seq<Member>): string {
    if ms == [] then "{}" else "{" + MembersText(ms)
  }

  function ReadMembers(s: string): Option<seq<Member>>
    decreases |s|
  {
    match ReadMember(s)
    case None => None
    case Some((m, rest)) =>
      if rest == "}" then Some([m])
      else if rest != "" && rest[0] == ',' then
        match ReadMembers(rest[1..])
        case None => None
        case Some(ms) => Some([m] + ms)
      else None
  }

  function ReadObject(s: string): Option<seq<Member>> {
    if s == "{}" then Some([]) else if s != "" && s[0] == '{' then ReadMembers(s[1..]) else None
  }

  lemma {:induction false} ReadMembersUndoes(ms: seq<Member>)
    requires ms != []
    ensures ReadMembers(MembersText(ms)) == Some(ms)
  {
    if |ms| == 1 {
      ReadMemberUndoes(ms[0], "}");
      assert ms == [ms[0]];
    } else {
      var rest := "," + MembersText(ms[1..]);
      ReadMemberUndoes(ms[0], rest);
      ReadMembersUndoes(ms[1..]);
      assert rest[1..] == MembersText(ms[1..]);
      assert ms == [ms[0]] + ms[1..];
    }
    hide ReadMember, MemberText;
  }

  /** Text produced from an object parses back to that object, members in order. */
  lemma ReadObjectUndoes(ms: seq<Member>)
    ensures ReadObject(ObjectText(ms)) == Some(ms)
  {
    if ms != [] {
      ReadMembersUndoes(ms);
      assert ObjectText(ms)[1..] == MembersText(ms);
      assert MembersText(ms)[0] == '\"';
    }
  }
}
