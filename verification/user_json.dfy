/** The signed-in user as the browser keeps it: `JSON.stringify` of the
    user object the server returned, read back with `JSON.parse`.

    The server's `User` has five string-valued members in a fixed order
    (`id`, `email`, `full_name`, `role`, `created_at`), so the stored text
    is one flat object. `Stringify` writes it as `JSON.stringify` does (no
    white space, members in order, strings escaped as section 24.5.2 of
    ECMA-262 says). `Parse` reads exactly that layout, with every escape
    JSON allows inside the strings; any other text is `None`. */
module UserJson {
  import opened Wrappers
  import opened Text

  datatype UserData = UserData(id: string, email: string, fullName: string, role: string, createdAt: string)

  // ---- strings ----

  function HexDigit(d: nat): (c: char)
    requires d < 16
  {
    if d < 10 then ('0' as int + d) as char else ('a' as int + d - 10) as char
  }

  function HexValue(c: char): Option<nat> {
    if '0' <= c <= '9' then Some(c as int - '0' as int)
    else if 'a' <= c <= 'f' then Some(c as int - 'a' as int + 10)
    else if 'A' <= c <= 'F' then Some(c as int - 'A' as int + 10)
    else None
  }

  /** `QuoteJSONString` for one code point: the quote, the backslash and
      the control characters are escaped, the short forms where JSON has
      them; everything else is itself. */
  function Escape(c: char): (r: string)
    ensures |r| > 0 && r[0] != '"'
  {
    if c == '"' then "\\\""
    else if c == '\\' then "\\\\"
    else if c == '\U{0008}' then "\\b"
    else if c == '\t' then "\\t"
    else if c == '\n' then "\\n"
    else if c == '\U{000C}' then "\\f"
    else if c == '\r' then "\\r"
    else if c < ' ' then ['\\', 'u', '0', '0', HexDigit(c as int / 16), HexDigit(c as int % 16)]
    else [c]
  }

  function Escaped(s: string): string {
    if |s| == 0 then [] else Escape(s[0]) + Escaped(s[1..])
  }

  /** The code point a `\uXXXX` escape names; a surrogate half is not a
      character of its own and is refused. */
  function UnitEscape(t: string): (r: Option<(char, string)>)
    ensures r.Some? ==> |r.value.1| == |t| - 4
  {
    if |t| < 4 then None
    else
      var d0 :- HexValue(t[0]);
      var d1 :- HexValue(t[1]);
      var d2 :- HexValue(t[2]);
      var d3 :- HexValue(t[3]);
      var n := ((d0 * 16 + d1) * 16 + d2) * 16 + d3;
      if 0xD800 <= n < 0xE000 then None else Some((n as char, t[4..]))
  }

  /** One character of a JSON string's body and the text after it; `None`
      at the closing quote, at a raw control character and at a bad
      escape. */
  function ReadChar(t: string): (r: Option<(char, string)>)
    ensures r.Some? ==> |r.value.1| < |t|
  {
    if |t| == 0 || t[0] == '"' || t[0] < ' ' then None
    else if t[0] != '\\' then Some((t[0], t[1..]))
    else if |t| < 2 then None
    else
      match t[1]
      case '"' => Some(('"', t[2..]))
      case '\\' => Some(('\\', t[2..]))
      case '/' => Some(('/', t[2..]))
      case 'b' => Some(('\U{0008}', t[2..]))
      case 'f' => Some(('\U{000C}', t[2..]))
      case 'n' => Some(('\n', t[2..]))
      case 'r' => Some(('\r', t[2..]))
      case 't' => Some(('\t', t[2..]))
      case 'u' => UnitEscape(t[2..])
      case _ => None
  }

  /** A JSON string's body up to its closing quote: the string and the text
      after the quote. */
  function ReadString(t: string): (r: Option<(string, string)>)
    ensures r.Some? ==> |r.value.1| < |t|
    decreases |t|
  {
    if |t| == 0 then None
    else if t[0] == '"' then Some(([], t[1..]))
    else
      var (c, rest) :- ReadChar(t);
      var (s, after) :- ReadString(rest);
      Some(([c] + s, after))
  }

  lemma HexRoundTrip(d: nat)
    requires d < 16
    ensures HexValue(HexDigit(d)) == Some(d)
  {
  }

  /** Reading an escaped control character gives it back. */
  lemma ControlRead(c: char, x: string)
    requires c < ' '
    ensures UnitEscape(['0', '0', HexDigit(c as int / 16), HexDigit(c as int % 16)] + x) == Some((c, x))
  {
    var u := ['0', '0', HexDigit(c as int / 16), HexDigit(c as int % 16)];
    HexRoundTrip(c as int / 16);
    HexRoundTrip(c as int % 16);
    assert (u + x)[4..] == x;
    assert (u + x)[2] == HexDigit(c as int / 16) && (u + x)[3] == HexDigit(c as int % 16);
  }

  /** Each escaped character reads back as itself. */
  lemma EscapeRead(c: char, x: string)
    ensures ReadChar(Escape(c) + x) == Some((c, x))
  {
    var e := Escape(c);
    if c < ' ' && c != '\U{0008}' && c != '\t' && c != '\n' && c != '\U{000C}' && c != '\r' {
      ControlRead(c, x);
      assert (e + x)[2..] == ['0', '0', HexDigit(c as int / 16), HexDigit(c as int % 16)] + x;
    } else if |e| == 1 {
      assert (e + x)[1..] == x;
    } else {
      assert (e + x)[2..] == x;
    }
  }

  /** The escaped body of a string and its closing quote read back as the
      string, whatever follows. */
  lemma {:induction false} EscapedRead(s: string, x: string)
    ensures ReadString(Escaped(s) + ("\"" + x)) == Some((s, x))
  {
    if |s| == 0 {
      assert Escaped(s) + ("\"" + x) == "\"" + x;
    } else {
      var rest := Escaped(s[1..]) + ("\"" + x);
      AppendAssoc(Escape(s[0]), Escaped(s[1..]), "\"" + x);
      EscapeRead(s[0], rest);
      EscapedRead(s[1..], x);
      assert (Escape(s[0]) + rest)[0] == Escape(s[0])[0];
      assert [s[0]] + s[1..] == s;
    }
  }

  // ---- the stored user ----

  /** A member: `lead` (its punctuation and name, up to the value's opening
      quote), the escaped value and the closing quote, then `rest`. */
  function Member(lead: string, value: string, rest: string): string {
    lead + (Escaped(value) + ("\"" + rest))
  }

  const IdLead: string := "{\"id\":\""
  const EmailLead: string := ",\"email\":\""
  const NameLead: string := ",\"full_name\":\""
  const RoleLead: string := ",\"role\":\""
  const CreatedLead: string := ",\"created_at\":\""

  /** `JSON.stringify(user)`. */
  function Stringify(u: UserData): (r: string)
    ensures |r| > 0 && r[0] == '{'
  {
    Member(IdLead, u.id, Member(EmailLead, u.email, Member(NameLead, u.fullName,
      Member(RoleLead, u.role, Member(CreatedLead, u.createdAt, "}")))))
  }

  /** The member after `lead`: its value and the text after it. */
  function ReadMember(t: string, lead: string): Option<(string, string)> {
    var body :- Expect(t, lead);
    ReadString(body)
  }

  /** `JSON.parse` of the stored user, for the layout `Stringify` writes. */
  function Parse(t: string): Option<UserData> {
    var (id, t1) :- ReadMember(t, IdLead);
    var (email, t2) :- ReadMember(t1, EmailLead);
    var (fullName, t3) :- ReadMember(t2, NameLead);
    var (role, t4) :- ReadMember(t3, RoleLead);
    var (createdAt, t5) :- ReadMember(t4, CreatedLead);
    if t5 == "}" then Some(UserData(id, email, fullName, role, createdAt)) else None
  }

  lemma MemberRead(lead: string, value: string, rest: string)
    ensures ReadMember(Member(lead, value, rest), lead) == Some((value, rest))
  {
    ExpectPrefix(lead, Escaped(value) + ("\"" + rest));
    EscapedRead(value, rest);
  }

  /** What `handleLogin` stores reads back as the same user. */
  lemma ParseStringify(u: UserData)
    ensures Parse(Stringify(u)) == Some(u)
  {
    var m5 := Member(CreatedLead, u.createdAt, "}");
    var m4 := Member(RoleLead, u.role, m5);
    var m3 := Member(NameLead, u.fullName, m4);
    var m2 := Member(EmailLead, u.email, m3);
    MemberRead(IdLead, u.id, m2);
    MemberRead(EmailLead, u.email, m3);
    MemberRead(NameLead, u.fullName, m4);
    MemberRead(RoleLead, u.role, m5);
    MemberRead(CreatedLead, u.createdAt, "}");
  }
}
