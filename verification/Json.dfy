/** The JSON texts of RFC 8259, as concrete syntax trees, and the fact that makes a backwards
    search for a JSON object sound: no `{` inside an object text starts another JSON text. */
module Json {
  import opened Text

  /** Section 7: one element of a string literal. */
  datatype Piece =
    | Plain(c: char)
    | Escape(e: char)
    | Unicode(hex: string)

  /** Sections 2 to 6. White space is kept where the grammar allows it. */
  datatype Value =
    | Literal(name: string)
    | Number(minus: bool, whole: string, frac: string, exp: string)
    | String(pieces: seq<Piece>)
    | Array(lead: string, items: Items)
    | Object(lead: string, members: Members)

  datatype Items =
    | NoItems
    | Item(before: string, value: Value, after: string, rest: Items)

  datatype Members =
    | NoMembers
    | Member(before: string, name: seq<Piece>, beforeColon: string, afterColon: string,
             value: Value, after: string, rest: Members)

  predicate IsWs(c: char) {
    c == ' ' || c == '\t' || c == '\n' || c == '\r'
  }

  predicate Ws(s: string) {
    forall i :: 0 <= i < |s| ==> IsWs(s[i])
  }

  predicate Digits(s: string) {
    s != "" && AllDigits(s)
  }

  predicate IsHex(c: char) {
    '0' <= c <= '9' || 'a' <= c <= 'f' || 'A' <= c <= 'F'
  }

  predicate PieceOk(p: Piece) {
    match p
    case Plain(c) => c >= ' ' && c != '"' && c != '\\'
    case Escape(e) => e in "\"\\/bfnrt"
    case Unicode(hex) => |hex| == 4 && forall i :: 0 <= i < 4 ==> IsHex(hex[i])
  }

  predicate PiecesOk(ps: seq<Piece>) {
    forall i :: 0 <= i < |ps| ==> PieceOk(ps[i])
  }

  predicate ExponentOk(exp: string) {
    exp == "" || (exp[0] in "eE" &&
                  (Digits(exp[1..]) || (|exp| > 1 && exp[1] in "+-" && Digits(exp[2..]))))
  }

  predicate Ok(v: Value) {
    match v
    case Literal(name) => name == "true" || name == "false" || name == "null"
    case Number(minus, whole, frac, exp) =>
      && Digits(whole) && (|whole| > 1 ==> whole[0] != '0')
      && (frac == "" || (frac[0] == '.' && Digits(frac[1..])))
      && ExponentOk(exp)
    case String(pieces) => PiecesOk(pieces)
    case Array(lead, items) => Ws(lead) && ItemsOk(items)
    case Object(lead, members) => Ws(lead) && MembersOk(members)
  }

  predicate ItemsOk(items: Items) {
    match items
    case NoItems => true
    case Item(before, value, after, rest) => Ws(before) && Ok(value) && Ws(after) && ItemsOk(rest)
  }

  predicate MembersOk(members: Members) {
    match members
    case NoMembers => true
    case Member(before, name, beforeColon, afterColon, value, after, rest) =>
      && Ws(before) && PiecesOk(name) && Ws(beforeColon) && Ws(afterColon)
      && Ok(value) && Ws(after) && MembersOk(rest)
  }

  /** The text of a piece followed by `t`; likewise below. */
  function PieceText(p: Piece, t: string): string {
    match p
    case Plain(c) => [c] + t
    case Escape(e) => ['\\', e] + t
    case Unicode(hex) => ['\\', 'u'] + (hex + t)
  }

  function PiecesText(ps: seq<Piece>, t: string): string {
    if ps == [] then t else PieceText(ps[0], PiecesText(ps[1..], t))
  }

  function Quoted(ps: seq<Piece>, t: string): string {
    ['"'] + PiecesText(ps, ['"'] + t)
  }

  function NumberText(minus: bool, whole: string, frac: string, exp: string): string {
    (if minus then "-" else "") + whole + frac + exp
  }

  function TextOf(v: Value, t: string): string {
    match v
    case Literal(name) => name + t
    case Number(minus, whole, frac, exp) => NumberText(minus, whole, frac, exp) + t
    case String(pieces) => Quoted(pieces, t)
    case Array(lead, items) => ['['] + (lead + ItemsText(items, [']'] + t))
    case Object(lead, members) => ['{'] + (lead + MembersText(members, ['}'] + t))
  }

  function ItemsText(items: Items, t: string): string {
    match items
    case NoItems => t
    case Item(before, value, after, rest) =>
      before + TextOf(value, after + (if rest.NoItems? then t else [','] + ItemsText(rest, t)))
  }

  function MembersText(members: Members, t: string): string {
    match members
    case NoMembers => t
    case Member(before, name, beforeColon, afterColon, value, after, rest) =>
      before + Quoted(name, beforeColon + ([':'] + (afterColon + TextOf(value,
        after + (if rest.NoMembers? then t else [','] + MembersText(rest, t))))))
  }

  ghost predicate Spells(s: string, w: string, v: Value, w': string) {
    Ws(w) && Ok(v) && Ws(w') && s == w + TextOf(v, w')
  }

  /** Section 2: JSON-text = ws value ws. */
  ghost predicate JsonText(s: string) {
    exists w, v, w' :: Spells(s, w, v, w')
  }

  ghost predicate ObjectText(s: string) {
    JsonText(s) && s != "" && s[0] == '{'
  }

  // ---------- a scanner that only tracks string literals and nesting ----------

  datatype Mode = Out(depth: nat) | In(depth: nat) | Esc(depth: nat) | Done | Dead

  function Next(m: Mode, c: char): Mode {
    match m
    case Out(d) =>
      if d == 0 then (if c == '{' then Out(1) else Dead)
      else if c == '"' then In(d)
      else if c == '{' || c == '[' then Out(d + 1)
      else if c == '}' || c == ']' then (if d == 1 then Done else Out(d - 1))
      else if c == '\\' then Dead
      else Out(d)
    case In(d) => if c == '"' then Out(d) else if c == '\\' then Esc(d) else In(d)
    case Esc(d) => In(d)
    case Done => if IsWs(c) then Done else Dead
    case Dead => Dead
  }

  function Scan(m: Mode, s: string): Mode
    decreases s
  {
    if s == "" then m else Scan(Next(m, s[0]), s[1..])
  }

  lemma {:induction false} ScanConcat(m: Mode, s: string, t: string)
    ensures Scan(m, s + t) == Scan(Scan(m, s), t)
    decreases s
  {
    if s == "" {
      assert s + t == t;
    } else {
      assert (s + t)[1..] == s[1..] + t;
      ScanConcat(Next(m, s[0]), s[1..], t);
    }
  }

  /** Characters that leave the scanner where it is. */
  predicate Inert(m: Mode, s: string) {
    forall i :: 0 <= i < |s| ==> Next(m, s[i]) == m
  }

  lemma {:induction false} ScanInert(m: Mode, s: string, t: string)
    requires Inert(m, s)
    ensures Scan(m, s + t) == Scan(m, t)
    decreases s
  {
    if s == "" {
      assert s + t == t;
    } else {
      assert (s + t)[1..] == s[1..] + t;
      ScanInert(m, s[1..], t);
    }
  }

  lemma ScanPiece(d: nat, p: Piece, t: string)
    requires PieceOk(p)
    ensures Scan(In(d), PieceText(p, t)) == Scan(In(d), t)
  {
    match p
    case Plain(c) => assert PieceText(p, t)[1..] == t;
    case Escape(e) =>
      assert PieceText(p, t)[1..] == [e] + t;
      assert PieceText(p, t)[1..][1..] == t;
    case Unicode(hex) =>
      assert PieceText(p, t)[1..] == ['u'] + (hex + t);
      assert PieceText(p, t)[1..][1..] == hex + t;
      ScanInert(In(d), hex, t);
  }

  lemma {:induction false} ScanPieces(d: nat, ps: seq<Piece>, t: string)
    requires PiecesOk(ps)
    ensures Scan(In(d), PiecesText(ps, t)) == Scan(In(d), t)
  {
    if ps != [] {
      ScanPiece(d, ps[0], PiecesText(ps[1..], t));
      ScanPieces(d, ps[1..], t);
    }
  }

  lemma ScanQuoted(d: nat, ps: seq<Piece>, t: string)
    requires PiecesOk(ps) && d > 0
    ensures Scan(Out(d), Quoted(ps, t)) == Scan(Out(d), t)
  {
    assert Quoted(ps, t)[1..] == PiecesText(ps, ['"'] + t);
    ScanPieces(d, ps, ['"'] + t);
    assert (['"'] + t)[1..] == t;
  }

  lemma NumberInert(d: nat, minus: bool, whole: string, frac: string, exp: string)
    requires Ok(Number(minus, whole, frac, exp)) && d > 0
    ensures Inert(Out(d), NumberText(minus, whole, frac, exp))
  {
    assert |exp| > 1 && exp[1] in "+-" ==> exp[1] == '+' || exp[1] == '-';
    assert exp != "" ==> exp[0] == 'e' || exp[0] == 'E';
    assert forall i :: 2 <= i < |exp| ==> exp[i] == exp[1..][i - 1] == exp[2..][i - 2];
    assert Inert(Out(d), exp);
    assert forall i :: 1 <= i < |frac| ==> frac[i] == frac[1..][i - 1];
    assert Inert(Out(d), frac);
  }

  /** One inert character. */
  lemma ScanOne(m: Mode, c: char, t: string)
    ensures Scan(m, [c] + t) == Scan(Next(m, c), t)
  {
    assert ([c] + t)[1..] == t;
  }

  lemma WsInert(d: nat, w: string)
    requires Ws(w) && d > 0
    ensures Inert(Out(d), w)
  {
  }

  /** A well-formed value inside a container returns the scanner to where it was. */
  lemma {:induction false} ScanValue(d: nat, v: Value, t: string)
    requires Ok(v) && d > 0
    ensures Scan(Out(d), TextOf(v, t)) == Scan(Out(d), t)
    decreases v
  {
    hide Scan, NumberText, ItemsText, MembersText, Quoted;
    match v
    case Literal(name) => ScanInert(Out(d), name, t);
    case Number(minus, whole, frac, exp) =>
      NumberInert(d, minus, whole, frac, exp);
      ScanInert(Out(d), NumberText(minus, whole, frac, exp), t);
    case String(pieces) => ScanQuoted(d, pieces, t);
    case Array(lead, items) =>
      WsInert(d + 1, lead);
      var body := ItemsText(items, [']'] + t);
      ScanOne(Out(d), '[', lead + body);
      ScanInert(Out(d + 1), lead, body);
      ScanItems(d + 1, items, [']'] + t);
      ScanOne(Out(d + 1), ']', t);
    case Object(lead, members) =>
      WsInert(d + 1, lead);
      var body := MembersText(members, ['}'] + t);
      ScanOne(Out(d), '{', lead + body);
      ScanInert(Out(d + 1), lead, body);
      ScanMembers(d + 1, members, ['}'] + t);
      ScanOne(Out(d + 1), '}', t);
  }

  lemma {:induction false} ScanItems(d: nat, items: Items, t: string)
    requires ItemsOk(items) && d > 0
    ensures Scan(Out(d), ItemsText(items, t)) == Scan(Out(d), t)
    decreases items
  {
    hide Scan, Inert, Ws, TextOf;
    match items
    case NoItems =>
    case Item(before, value, after, rest) =>
      WsInert(d, before);
      WsInert(d, after);
      var more := if rest.NoItems? then t else [','] + ItemsText(rest, t);
      ScanInert(Out(d), before, TextOf(value, after + more));
      ScanValue(d, value, after + more);
      ScanInert(Out(d), after, more);
      if !rest.NoItems? {
        ScanOne(Out(d), ',', ItemsText(rest, t));
        ScanItems(d, rest, t);
      }
  }

  lemma {:induction false} ScanMembers(d: nat, members: Members, t: string)
    requires MembersOk(members) && d > 0
    ensures Scan(Out(d), MembersText(members, t)) == Scan(Out(d), t)
    decreases members
  {
    hide Scan, Inert, Ws, TextOf, Quoted;
    match members
    case NoMembers =>
    case Member(before, name, beforeColon, afterColon, value, after, rest) =>
      WsInert(d, before);
      WsInert(d, beforeColon);
      WsInert(d, afterColon);
      WsInert(d, after);
      var more := if rest.NoMembers? then t else [','] + MembersText(rest, t);
      var s1 := TextOf(value, after + more);
      var s2 := [':'] + (afterColon + s1);
      ScanInert(Out(d), before, Quoted(name, beforeColon + s2));
      ScanQuoted(d, name, beforeColon + s2);
      ScanInert(Out(d), beforeColon, s2);
      ScanOne(Out(d), ':', afterColon + s1);
      ScanInert(Out(d), afterColon, s1);
      ScanValue(d, value, after + more);
      ScanInert(Out(d), after, more);
      if !rest.NoMembers? {
        ScanOne(Out(d), ',', MembersText(rest, t));
        ScanMembers(d, rest, t);
      }
  }

  /** Only the text of an object starts with `{`. */
  lemma FirstCharacter(v: Value, t: string)
    requires Ok(v)
    ensures TextOf(v, t) != "" && (TextOf(v, t)[0] == '{' <==> v.Object?)
  {
    match v
    case Number(minus, whole, frac, exp) =>
      assert TextOf(v, t)[0] == if minus then '-' else whole[0];
    case Literal(name) => assert TextOf(v, t)[0] == name[0];
    case _ =>
  }

  /** Every object text of the grammar is accepted by the scanner. */
  lemma ScanObject(s: string)
    requires ObjectText(s)
    ensures Scan(Out(0), s) == Done
  {
    var w, v, w' :| Spells(s, w, v, w');
    assert w != "" ==> s[0] == w[0] && IsWs(w[0]);
    assert s == TextOf(v, w');
    FirstCharacter(v, w');
    WsInert(1, v.lead);
    var body := MembersText(v.members, ['}'] + w');
    ScanOne(Out(0), '{', v.lead + body);
    ScanInert(Out(1), v.lead, body);
    ScanMembers(1, v.members, ['}'] + w');
    ScanOne(Out(1), '}', w');
    assert w' + "" == w';
    ScanInert(Done, w', "");
  }

  lemma {:induction false} DeadStays(s: string)
    ensures Scan(Dead, s) == Dead
  {
    if s != "" {
      DeadStays(s[1..]);
    }
  }

  /** Quote parity: two scanners of which exactly one is inside a string literal never both
      accept. A quote swaps them; a backslash kills the one outside. */
  lemma {:induction false} QuoteParity(m: Mode, f: Mode, s: string)
    requires (m.Out? && m.depth > 0) || m.Done?
    requires f.In? && f.depth > 0
    ensures !(Scan(m, s).Done? && Scan(f, s).Done?)
    decreases s
  {
    if s != "" {
      var m', f' := Next(m, s[0]), Next(f, s[0]);
      if m'.Dead? {
        DeadStays(s[1..]);
      } else if s[0] == '"' {
        QuoteParity(f', m', s[1..]);
      } else {
        QuoteParity(m', f', s[1..]);
      }
    }
  }

  /** The two scanners agree up to `e` levels of enclosing containers. */
  predicate Nested(m: Mode, f: Mode, e: nat) {
    || (m.Out? && f.Out? && f.depth > 0 && m.depth == f.depth + e)
    || (m.In? && f.In? && f.depth > 0 && m.depth == f.depth + e)
    || (m.Esc? && f.Esc? && f.depth > 0 && m.depth == f.depth + e)
    || (m == Out(e) && f.Done?)
  }

  /** A scanner with an enclosing container left to close and one without never both accept. */
  lemma {:induction false} Nesting(m: Mode, f: Mode, e: nat, s: string)
    requires e > 0 && Nested(m, f, e)
    ensures !(Scan(m, s).Done? && Scan(f, s).Done?)
    decreases s
  {
    if s != "" {
      var m', f' := Next(m, s[0]), Next(f, s[0]);
      if m'.Dead? || f'.Dead? {
        DeadStays(s[1..]);
      } else {
        Nesting(m', f', e, s[1..]);
      }
    }
  }

  /** Inside an object text the scanner is never back at its start. */
  lemma {:induction false} PastStart(m: Mode, s: string)
    requires m.Dead? || m.Done? || m.depth > 0
    ensures Scan(m, s).Dead? || Scan(m, s).Done? || Scan(m, s).depth > 0
    decreases s
  {
    if s != "" {
      PastStart(Next(m, s[0]), s[1..]);
    }
  }

  /** No `{` after the first character of an object text starts a JSON text. */
  lemma InnerBrace(j: string, k: nat)
    requires ObjectText(j)
    requires 0 < k < |j| && j[k] == '{'
    ensures !JsonText(j[k..])
  {
    if JsonText(j[k..]) {
      ScanObject(j);
      ScanObject(j[k..]);
      assert j == j[..k] + j[k..];
      ScanConcat(Out(0), j[..k], j[k..]);
      var m := Scan(Out(0), j[..k]);
      PastStart(Next(Out(0), j[0]), j[..k][1..]);
      var rest := j[k..][1..];
      match m
      case Out(d) => Nesting(Out(d + 1), Out(1), d, rest);
      case In(d) => QuoteParity(Out(1), In(d), rest);
      case Esc(d) => QuoteParity(Out(1), In(d), rest);
      case Done => DeadStays(rest);
      case Dead => DeadStays(rest);
    }
  }

  // ---------- how an object text ends ----------

  lemma {:induction false} PiecesEnd(ps: seq<Piece>, t: string) returns (head: string)
    ensures PiecesText(ps, t) == head + t
  {
    if ps == [] {
      head := "";
    } else {
      var h := PiecesEnd(ps[1..], t);
      head := match ps[0] {
        case Plain(c) => [c] + h
        case Escape(e) => ['\\', e] + h
        case Unicode(hex) => ['\\', 'u'] + (hex + h)
      };
    }
  }

  lemma QuotedEnd(ps: seq<Piece>, t: string) returns (head: string)
    ensures Quoted(ps, t) == head + t
  {
    var h := PiecesEnd(ps, ['"'] + t);
    head := ['"'] + h + ['"'];
  }

  lemma MemberEnd(before: string, name: seq<Piece>, beforeColon: string, afterColon: string,
                  text: string, v: string, after: string, h: string, t: string) returns (head: string)
    requires text == v + (after + (h + t))
    ensures before + Quoted(name, beforeColon + ([':'] + (afterColon + text))) == head + t
  {
    hide Quoted;
    var e := beforeColon + [':'] + afterColon + v + after + h;
    assert beforeColon + ([':'] + (afterColon + text)) == e + t;
    var q := QuotedEnd(name, e + t);
    head := before + q + e;
  }

  /** The text of a value followed by `t` ends in `t`. */
  lemma {:induction false} TextEnd(v: Value, t: string) returns (head: string)
    ensures TextOf(v, t) == head + t
    decreases v
  {
    match v
    case Literal(name) => head := name;
    case Number(minus, whole, frac, exp) => head := NumberText(minus, whole, frac, exp);
    case String(pieces) => head := QuotedEnd(pieces, t);
    case Array(lead, items) =>
      var h := ItemsEnd(items, [']'] + t);
      head := ['['] + lead + h + [']'];
    case Object(lead, members) =>
      var h := MembersEnd(members, ['}'] + t);
      head := ['{'] + lead + h + ['}'];
  }

  lemma {:induction false} ItemsEnd(items: Items, t: string) returns (head: string)
    ensures ItemsText(items, t) == head + t
    decreases items
  {
    match items
    case NoItems => head := "";
    case Item(before, value, after, rest) =>
      var h := "";
      if !rest.NoItems? {
        h := ItemsEnd(rest, t);
        h := [','] + h;
      }
      var more := if rest.NoItems? then t else [','] + ItemsText(rest, t);
      assert more == h + t;
      var v := TextEnd(value, after + more);
      head := before + v + after + h;
  }

  lemma {:induction false} MembersEnd(members: Members, t: string) returns (head: string)
    ensures MembersText(members, t) == head + t
    decreases members
  {
    hide TextOf, Quoted;
    match members
    case NoMembers => head := "";
    case Member(before, name, beforeColon, afterColon, value, after, rest) =>
      var h := "";
      if !rest.NoMembers? {
        h := MembersEnd(rest, t);
        h := [','] + h;
      }
      var more := if rest.NoMembers? then t else [','] + MembersText(rest, t);
      assert more == h + t;
      var v := TextEnd(value, after + more);
      head := MemberEnd(before, name, beforeColon, afterColon, TextOf(value, after + more), v, after, h, t);
  }

  lemma WsFrom(s: string, a: nat)
    requires a <= |s| && Ws(s[a..])
    ensures forall k :: a <= k < |s| ==> IsWs(s[k])
  {
    assert forall k :: a <= k < |s| ==> s[a..][k - a] == s[k];
  }

  /** There is one last visible character. */
  lemma LastVisible(s: string, a: nat, b: nat)
    requires 0 < a <= |s| && !IsWs(s[a - 1]) && Ws(s[a..])
    requires 0 < b <= |s| && !IsWs(s[b - 1]) && Ws(s[b..])
    ensures a == b
  {
    WsFrom(s, a);
    WsFrom(s, b);
  }

  /** The last character of an object text that is not white space is a closing brace. */
  lemma ObjectEnds(s: string) returns (n: nat)
    requires ObjectText(s)
    ensures 0 < n <= |s| && s[n - 1] == '}' && Ws(s[n..])
  {
    var w, v, w' :| Spells(s, w, v, w');
    assert w != "" ==> s[0] == w[0] && IsWs(w[0]);
    assert s == TextOf(v, w');
    FirstCharacter(v, w');
    var h := MembersEnd(v.members, ['}'] + w');
    var head := ['{'] + v.lead + h;
    assert s == head + ['}'] + w';
    n := |head| + 1;
    assert s[n..] == w';
  }
}
