// The part of serde_json the schema compiler relies on: values, object lookup, compact printing.
module Json {
  import opened Wrappers

  predicate InNumber(c: char) {
    '0' <= c <= '9' || c == '-' || c == '+' || c == '.' || c == 'e' || c == 'E'
  }

  // What a JSON number looks like, as far as it matters here.
  type NumberText = s: string | s != "" && forall i :: 0 <= i < |s| ==> InNumber(s[i]) witness "0"

  // Numbers keep their text; an object's members are in the map's iteration order.
  datatype Json = JNull
                | JBool(b: bool)
                | JNumber(text: NumberText)
                | JString(s: string)
                | JArray(items: seq<Json>)
                | JObject(members: seq<Member>)

  datatype Member = Member(key: string, value: Json)

  function Lookup(members: seq<Member>, key: string): (r: Option<Json>)
    ensures r.Some? ==> exists i :: 0 <= i < |members| && members[i].value == r.value
  {
    if members == [] then None
    else if members[0].key == key then Some(members[0].value)
    else Lookup(members[1..], key)
  }

  // Value::get: only objects have members.
  function Get(j: Json, key: string): (r: Option<Json>)
    ensures r.Some? ==> r.value < j
  {
    if j.JObject? then Lookup(j.members, key) else None
  }

  // A map holds each key once.
  predicate DistinctKeys(members: seq<Member>) {
    forall i, j :: 0 <= i < j < |members| ==> members[i].key != members[j].key
  }

  const HEX := "0123456789abcdef"

  function EscapeChar(c: char): string {
    match c
    case '"' => "\\\""
    case '\\' => "\\\\"
    case '\n' => "\\n"
    case '\r' => "\\r"
    case '\t' => "\\t"
    case _ =>
      if c == 8 as char then "\\b"
      else if c == 12 as char then "\\f"
      else if c < ' ' then "\\u00" + [HEX[c as int / 16], HEX[c as int % 16]]
      else [c]
  }

  function Escape(s: string): string {
    if s == "" then "" else EscapeChar(s[0]) + Escape(s[1..])
  }

  // Display of a value: compact JSON text.
  function Print(j: Json): string
    decreases j, 0
  {
    match j
    case JNull => "null"
    case JBool(b) => if b then "true" else "false"
    case JNumber(text) => text
    case JString(s) => "\"" + Escape(s) + "\""
    case JArray(items) => "[" + PrintItems(items) + "]"
    case JObject(members) => "{" + PrintMembers(members) + "}"
  }

  function PrintItems(items: seq<Json>): string
    decreases items, 1
  {
    if items == [] then ""
    else Print(items[0]) + (if |items| == 1 then "" else "," + PrintItems(items[1..]))
  }

  function PrintMembers(members: seq<Member>): string
    decreases members, 1
  {
    if members == [] then ""
    else "\"" + Escape(members[0].key) + "\":" + Print(members[0].value)
         + (if |members| == 1 then "" else "," + PrintMembers(members[1..]))
  }

  // Text that JSON writes between quotes as it stands.
  predicate PlainChar(c: char) {
    c != '"' && c != '\\' && ' ' <= c
  }

  lemma EscapeOne(c: char)
    ensures |EscapeChar(c)| >= 1 && (|EscapeChar(c)| == 1 <==> PlainChar(c))
    ensures PlainChar(c) ==> EscapeChar(c) == [c]
  {
  }

  // Quoting a string without escaping gives its JSON text exactly when there is nothing to escape.
  lemma {:induction false} EscapeIsIdentity(s: string)
    ensures |Escape(s)| >= |s|
    ensures Escape(s) == s <==> forall i :: 0 <= i < |s| ==> PlainChar(s[i])
  {
    hide EscapeChar, PlainChar;
    if s != "" {
      EscapeIsIdentity(s[1..]);
      EscapeOne(s[0]);
      assert s == [s[0]] + s[1..];
      assert forall i :: 0 <= i < |s[1..]| ==> s[1..][i] == s[i + 1];
      assert forall i :: 1 <= i < |s| ==> s[i] == s[1..][i - 1];
      if PlainChar(s[0]) {
        assert Escape(s) == [s[0]] + Escape(s[1..]);
        assert Escape(s)[1..] == Escape(s[1..]);
      }
    }
  }

  // ---------------------------------------------------------------- what lookup and printing do

  // A member of an object: the first of that name.
  lemma {:induction false} LookupIff(members: seq<Member>, key: string, v: Json)
    ensures Lookup(members, key) == Some(v)
            <==> exists i :: 0 <= i < |members| && members[i] == Member(key, v) && IsFirst(members, key, i)
  {
    if members != [] {
      LookupIff(members[1..], key, v);
      var rest := members[1..];
      assert forall i :: 0 <= i < |rest| ==> rest[i] == members[i + 1];
      if members[0].key == key {
        assert members[0] == Member(key, members[0].value);
        assert IsFirst(members, key, 0);
      } else {
        if i :| 0 <= i < |rest| && rest[i] == Member(key, v) && IsFirst(rest, key, i) {
          assert members[i + 1] == Member(key, v) && IsFirst(members, key, i + 1);
        }
        if i :| 0 <= i < |members| && members[i] == Member(key, v) && IsFirst(members, key, i) {
          assert i > 0 && rest[i - 1] == Member(key, v) && IsFirst(rest, key, i - 1);
        }
      }
    }
  }

  predicate IsFirst(members: seq<Member>, key: string, i: nat) {
    i < |members| && forall k :: 0 <= k < i ==> members[k].key != key
  }

  lemma GetIff(j: Json, key: string, v: Json)
    ensures Get(j, key) == Some(v)
            <==> && j.JObject?
                 && exists i :: 0 <= i < |j.members| && j.members[i] == Member(key, v) && IsFirst(j.members, key, i)
  {
    if j.JObject? {
      LookupIff(j.members, key, v);
    }
  }

  // Values without parts, and empty collections.
  lemma PrintLeaves()
    ensures Print(JNull) == "null" && Print(JBool(true)) == "true" && Print(JBool(false)) == "false"
    ensures Print(JArray([])) == "[]" && Print(JObject([])) == "{}"
  {
    assert "[" + "" == "[" && "{" + "" == "{";
  }

  // Collections of one.
  lemma PrintOne(v: Json, m: Member)
    ensures Print(JArray([v])) == "[" + Print(v) + "]"
    ensures Print(JObject([m])) == "{" + (Print(JString(m.key)) + ":" + Print(m.value)) + "}"
  {
    hide Escape;
    assert PrintItems([v]) == Print(v) + "" == Print(v);
    PrintOneMember(m);
  }

  // Another item goes in front of the bracket, behind a comma.
  lemma PrintOneMore(items: seq<Json>, v: Json)
    requires items != []
    ensures var inner := PrintItems(items);
            && Print(JArray(items)) == "[" + inner + "]"
            && Print(JArray(items + [v])) == "[" + (inner + "," + Print(v)) + "]"
  {
    ItemsOneMore(items, v);
  }

  lemma {:induction false} ItemsOneMore(items: seq<Json>, v: Json)
    requires items != []
    ensures PrintItems(items + [v]) == PrintItems(items) + "," + Print(v)
    decreases |items|
  {
    hide Print;
    var all := items + [v];
    assert all[0] == items[0] && all[1..] == items[1..] + [v];
    if |items| == 1 {
      assert all[1..] == [v] && PrintItems([v]) == Print(v) + "" == Print(v);
      assert PrintItems(items) == Print(items[0]) + "" == Print(items[0]);
    } else {
      ItemsOneMore(items[1..], v);
      var first, rest := Print(items[0]), PrintItems(items[1..]);
      assert PrintItems(items) == first + ("," + rest);
      assert first + ("," + (rest + "," + Print(v))) == first + ("," + rest) + "," + Print(v);
    }
  }

  // And another member, with its name as a string and a colon, in front of the brace.
  lemma PrintOneMoreMember(members: seq<Member>, m: Member)
    requires members != []
    ensures var inner := PrintMembers(members);
            && Print(JObject(members)) == "{" + inner + "}"
            && Print(JObject(members + [m]))
               == "{" + (inner + "," + (Print(JString(m.key)) + ":" + Print(m.value))) + "}"
  {
    hide Escape;
    MembersOneMore(members, m);
    PrintOneMember(m);
  }

  lemma {:induction false} MembersOneMore(members: seq<Member>, m: Member)
    requires members != []
    ensures PrintMembers(members + [m]) == PrintMembers(members) + "," + PrintMembers([m])
    decreases |members|
  {
    hide Print, Escape;
    var all := members + [m];
    assert all[0] == members[0] && all[1..] == members[1..] + [m];
    var first := "\"" + Escape(members[0].key) + "\":" + Print(members[0].value);
    if |members| == 1 {
      assert all[1..] == [m];
      assert PrintMembers(members) == first + "" == first;
      assert PrintMembers(all) == first + ("," + PrintMembers([m])) == first + "," + PrintMembers([m]);
    } else {
      MembersOneMore(members[1..], m);
      var rest := PrintMembers(members[1..]);
      assert PrintMembers(members) == first + ("," + rest);
      assert PrintMembers(all) == first + ("," + (rest + "," + PrintMembers([m])));
      assert first + ("," + (rest + "," + PrintMembers([m]))) == first + ("," + rest) + "," + PrintMembers([m]);
    }
  }

  lemma PrintOneMember(m: Member)
    ensures PrintMembers([m]) == Print(JString(m.key)) + ":" + Print(m.value)
  {
    hide Escape;
    assert PrintMembers([m]) == "\"" + Escape(m.key) + "\":" + Print(m.value) + "";
  }

  // ---------------------------------------------------------------- escapes

  // What a character between the quotes of a string is written as.
  lemma EscapeForms(c: char)
    ensures EscapeChar('"') == "\\\"" && EscapeChar('\\') == "\\\\"
    ensures EscapeChar('\n') == "\\n" && EscapeChar('\r') == "\\r" && EscapeChar('\t') == "\\t"
    ensures EscapeChar(8 as char) == "\\b" && EscapeChar(12 as char) == "\\f"
    ensures c < ' ' && c as int !in {8, 9, 10, 12, 13} ==> |EscapeChar(c)| == 6 && EscapeChar(c)[..4] == "\\u00"
    ensures ' ' <= c && c != '"' && c != '\\' ==> EscapeChar(c) == [c]
  {
  }

  function HexValue(c: char): nat {
    if '0' <= c <= '9' then (c - '0') as nat
    else if 'a' <= c <= 'f' then (c - 'a') as nat + 10
    else if 'A' <= c <= 'F' then (c - 'A') as nat + 10
    else 16
  }

  // What one escape stands for (RFC 8259, section 7), and how much of the text it takes.
  function Decode(w: string): Option<(char, nat)> {
    if w == "" then None
    else if w[0] != '\\' then Some((w[0], 1))
    else if |w| == 1 then None
    else match w[1]
      case '"' => Some(('"', 2))
      case '\\' => Some(('\\', 2))
      case '/' => Some(('/', 2))
      case 'b' => Some((8 as char, 2))
      case 'f' => Some((12 as char, 2))
      case 'n' => Some(('\n', 2))
      case 'r' => Some(('\r', 2))
      case 't' => Some(('\t', 2))
      case 'u' =>
        if |w| < 6 || HexValue(w[2]) != 0 || HexValue(w[3]) != 0 || HexValue(w[4]) > 15 || HexValue(w[5]) > 15 then None
        else Some(((16 * HexValue(w[4]) + HexValue(w[5])) as char, 6))
      case _ => None
  }

  // The string that the text between the quotes stands for; of \u only those below U+0100 occur here.
  function Decoded(w: string): Option<string>
    decreases |w|
  {
    if w == "" then Some("")
    else match Decode(w)
      case None => None
      case Some((c, n)) =>
        if n == 0 || n > |w| then None
        else match Decoded(w[n..])
          case None => None
          case Some(rest) => Some([c] + rest)
  }

  lemma DecodeOne(c: char, rest: string)
    ensures Decode(EscapeChar(c) + rest) == Some((c, |EscapeChar(c)|)) && |EscapeChar(c)| > 0
  {
    if c < ' ' && c as int !in {8, 9, 10, 12, 13} {
      HexDigits(c as int / 16);
      HexDigits(c as int % 16);
      DecodeHex(c, rest);
    } else if c == '"' || c == '\\' || c < ' ' {
      DecodeShort(c, rest);
    } else {
      assert EscapeChar(c) == [c];
    }
  }

  lemma HexDigits(d: int)
    requires 0 <= d < 16
    ensures HexValue(HEX[d]) == d
  {
  }

  lemma DecodeHex(c: char, rest: string)
    requires c < ' ' && c as int !in {8, 9, 10, 12, 13}
    requires HexValue(HEX[c as int / 16]) == c as int / 16 && HexValue(HEX[c as int % 16]) == c as int % 16
    ensures Decode(EscapeChar(c) + rest) == Some((c, 6)) && |EscapeChar(c)| == 6
  {
    hide HexValue;
    var e := "\\u00" + [HEX[c as int / 16], HEX[c as int % 16]];
    assert EscapeChar(c) == e;
    var w := e + rest;
    assert w[0] == '\\' && w[1] == 'u' && w[2] == '0' && w[3] == '0';
    assert w[4] == HEX[c as int / 16] && w[5] == HEX[c as int % 16];
    ZeroIsZero();
  }

  lemma ZeroIsZero()
    ensures HexValue('0') == 0
  {
  }

  lemma DecodeShort(c: char, rest: string)
    requires c == '"' || c == '\\' || c as int in {8, 9, 10, 12, 13}
    ensures Decode(EscapeChar(c) + rest) == Some((c, 2)) && |EscapeChar(c)| == 2
  {
    var w := EscapeChar(c) + rest;
    assert w[0] == EscapeChar(c)[0] && w[1] == EscapeChar(c)[1];
  }

  // Reading an escaped string back gives the string.
  lemma {:induction false} EscapeReadsBack(s: string)
    ensures Decoded(Escape(s)) == Some(s)
  {
    hide EscapeChar, Decode;
    if s != "" {
      var e, rest := EscapeChar(s[0]), Escape(s[1..]);
      DecodeOne(s[0], rest);
      assert (e + rest)[|e|..] == rest;
      EscapeReadsBack(s[1..]);
      assert s == [s[0]] + s[1..];
    }
  }
}
