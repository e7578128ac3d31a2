/** Printing a proof log and reading it back. String escapes are those of
    section 7 of RFC 8259. */
module ProofLog {
  import opened Options

  datatype Logged = Logged(name: string, tactic: string, solver: string, status: string, smtFile: string)

  datatype Goal = Goal(logged: Logged, disagreement: bool)

  // ----- the writer -----

  /** A control byte that is escaped by its code. */
  predicate IsBare(c: char) {
    c < ' ' && c != '\n' && c != '\r' && c != '\t'
  }

  function HexDigit(n: nat): char
    requires n < 16
  {
    "0123456789abcdef"[n]
  }

  function EscapeChar(c: char): (e: string)
    ensures |e| > 0
  {
    if c == '\"' then "\\\""
    else if c == '\\' then "\\\\"
    else if c == '\n' then "\\n"
    else if c == '\r' then "\\r"
    else if c == '\t' then "\\t"
    else if c < ' ' then "\\u00" + [HexDigit(c as int / 16), HexDigit(c as int % 16)]
    else [c]
  }

  function Escape(v: string): string {
    if v == "" then "" else EscapeChar(v[0]) + Escape(v[1..])
  }

  /** A field up to its opening quote. */
  function Open(key: string): string {
    "      " + ("\"" + (key + ("\"" + (": " + "\""))))
  }

  /** One field, followed by `tail`. */
  function Field(key: string, v: string, tail: string): string {
    Open(key) + (Escape(v) + ("\"" + tail))
  }

  /** The fields of a goal in the order written. */
  function Pairs(g: Logged): (ps: seq<(string, string)>)
    ensures |ps| == 5
  {
    [("label", g.name), ("tactic", g.tactic), ("solver", g.solver), ("status", g.status), ("smt_file", g.smtFile)]
  }

  function Fields(ps: seq<(string, string)>, tail: string): string {
    if |ps| == 0 then tail
    else Field(ps[0].0, ps[0].1, if |ps| == 1 then tail else ",\n" + Fields(ps[1..], tail))
  }

  /** What follows the last field inside the braces. */
  function Ending(g: Goal): string {
    (if g.disagreement then ",\n      \"disagreement\": true" else "") + "\n    "
  }

  function Inside(g: Goal): string {
    "\n" + Fields(Pairs(g.logged), Ending(g))
  }

  /** The goals' text, followed by `tail`. */
  function GoalsText(gs: seq<Goal>, tail: string): string {
    if |gs| == 0 then tail
    else "    " + ("{" + (Inside(gs[0]) + ("}" + (Separator(gs) + GoalsText(gs[1..], tail)))))
  }

  function Separator(gs: seq<Goal>): string {
    if |gs| == 1 then "\n" else ",\n"
  }

  /** Up to the source's opening quote. */
  function Head(rest: string): string {
    "{\n  " + ("\"" + ("version" + ("\"" + (": 1,\n  " + ("\"" + ("source" + ("\"" + (": " + rest))))))))
  }

  /** From after the source's closing quote up to the array. */
  function Middle(stamp: string, rest: string): string {
    ",\n  " + ("\"" + ("timestamp" + ("\"" + (": " + (stamp + (",\n  " + rest))))))
  }

  /** `writeProofLog`: the file's text. `stamp` is the printed time. */
  function LogText(gs: seq<Goal>, source: string, stamp: string): string {
    Head("\"" + (Escape(source) + ("\"" + Middle(stamp, "\"goals\"" + (": [" + ("\n" + GoalsText(gs, "  ]\n}\n")))))))
  }

  // ----- the reader -----

  /** `find`: the text from the first occurrence on. */
  function From(s: string, pat: string): (r: Option<string>)
    ensures r.Some? ==> pat <= r.value
  {
    if pat <= s then Some(s) else if s == "" then None else From(s[1..], pat)
  }

  /** The text before and after the first occurrence of a character. */
  function Cut(s: string, c: char): (r: Option<(string, string)>)
    ensures r.Some? <==> c in s
  {
    if s == "" then None
    else if s[0] == c then Some(("", s[1..]))
    else
      var r := Cut(s[1..], c);
      if r.None? then None else Some(([s[0]] + r.value.0, r.value.1))
  }

  function Unescape(c: char): char {
    if c == 'n' then '\n' else if c == 'r' then '\r' else if c == 't' then '\t' else c
  }

  /** A quoted string's text, up to the closing quote or the end. */
  function Scan(s: string): string {
    if s == "" || s[0] == '\"' then ""
    else if s[0] == '\\' && |s| > 1 then [Unescape(s[1])] + Scan(s[2..])
    else [s[0]] + Scan(s[1..])
  }

  function SkipBlanks(s: string): string {
    if s != "" && (s[0] == ' ' || s[0] == '\t') then SkipBlanks(s[1..]) else s
  }

  function Pattern(key: string): string {
    "\"" + (key + "\":")
  }

  /** The string after a key; empty if the key or the quote is missing. */
  function Value(at: Option<string>, key: string): string
    requires at.Some? ==> Pattern(key) <= at.value
  {
    if at.None? then ""
    else
      var rest := SkipBlanks(at.value[|Pattern(key)|..]);
      if rest == "" || rest[0] != '\"' then "" else Scan(rest[1..])
  }

  /** `jsonStringField` */
  function StringField(obj: string, key: string): string {
    Value(From(obj, Pattern(key)), key)
  }

  function ReadGoal(obj: string): Logged {
    Logged(StringField(obj, "label"), StringField(obj, "tactic"), StringField(obj, "solver"),
           StringField(obj, "status"), StringField(obj, "smt_file"))
  }

  lemma {:induction false} CutParts(s: string, c: char)
    ensures Cut(s, c).Some? ==> s == Cut(s, c).value.0 + ([c] + Cut(s, c).value.1) && c !in Cut(s, c).value.0
    ensures Cut(s, c).None? ==> c !in s
    decreases |s|
  {
    if s != "" && s[0] != c { CutParts(s[1..], c); assert s == [s[0]] + s[1..]; }
  }

  /** The objects of the array, one after the other. */
  function ReadObjects(body: string): seq<Logged>
    decreases |body|
  {
    var open := Cut(body, '{');
    if open.None? then []
    else
      var close := Cut(open.value.1, '}');
      if close.None? then []
      else
        CutParts(body, '{'); CutParts(open.value.1, '}');
        [ReadGoal("{" + close.value.0 + "}")] + ReadObjects(close.value.1)
  }

  datatype Result = NoArray | Malformed | Goals(goals: seq<Logged>)

  /** `parseProofLog` */
  function Parse(txt: string): Result {
    var arr := From(txt, "\"goals\"");
    if arr.None? then NoArray
    else
      var lb := Cut(arr.value, '[');
      if lb.None? then Malformed
      else
        var rb := Cut(lb.value.1, ']');
        if rb.None? then Malformed else Goals(ReadObjects(rb.value.0))
  }

  // ----- one string -----

  predicate Plain(v: string) {
    forall i :: 0 <= i < |v| ==> !IsBare(v[i])
  }

  function BareCount(v: string): nat {
    if v == "" then 0 else (if IsBare(v[0]) then 1 else 0) + BareCount(v[1..])
  }

  lemma {:induction false} BareNone(v: string)
    ensures BareCount(v) == 0 <==> Plain(v)
    decreases |v|
  {
    if v != "" {
      BareNone(v[1..]);
      assert v == [v[0]] + v[1..];
      if Plain(v[1..]) && !IsBare(v[0]) {
        forall i | 0 <= i < |v| ensures !IsBare(v[i]) { if i > 0 { assert v[i] == v[1..][i - 1]; } }
      }
      if Plain(v) {
        forall i | 0 <= i < |v[1..]| ensures !IsBare(v[1..][i]) { assert v[1..][i] == v[i + 1]; }
      }
    }
  }

  lemma ScanSafe(c: char, rest: string)
    requires !IsBare(c)
    ensures Scan(EscapeChar(c) + rest) == [c] + Scan(rest)
  {
    var t := EscapeChar(c) + rest;
    if |EscapeChar(c)| == 2 { assert t[2..] == rest; } else { ScanPlainChar(c, rest); }
  }

  lemma ScanBare(c: char, rest: string)
    requires IsBare(c)
    ensures Scan(EscapeChar(c) + rest)
         == ['u', '0', '0', HexDigit(c as int / 16), HexDigit(c as int % 16)] + Scan(rest)
  {
    var a, b := HexDigit(c as int / 16), HexDigit(c as int % 16);
    var t := EscapeChar(c) + rest;
    assert t[0] == '\\' && t[1] == 'u' && t[2..] == ['0'] + (['0'] + ([a] + ([b] + rest)));
    ScanPlainChar('0', ['0'] + ([a] + ([b] + rest)));
    ScanPlainChar('0', [a] + ([b] + rest));
    ScanPlainChar(a, [b] + rest);
    ScanPlainChar(b, rest);
    assert Scan(t) == ['u'] + Scan(t[2..]);
    FiveChars('u', '0', '0', a, b, Scan(rest));
  }

  lemma FiveChars(c1: char, c2: char, c3: char, c4: char, c5: char, s: string)
    ensures [c1] + ([c2] + ([c3] + ([c4] + ([c5] + s)))) == [c1, c2, c3, c4, c5] + s
  {
  }

  lemma ScanPlainChar(c: char, rest: string)
    requires c != '\\' && c != '\"'
    ensures Scan([c] + rest) == [c] + Scan(rest)
  {
    assert ([c] + rest)[1..] == rest;
  }

  lemma EscapeHead(v: string, tail: string)
    requires v != ""
    ensures Escape(v) + tail == EscapeChar(v[0]) + (Escape(v[1..]) + tail)
  {
  }

  /** What is printed between quotes is read back as it was exactly when it has
      no control byte other than newline, carriage return and tab. */
  lemma {:induction false} ScanEscape(v: string, tail: string)
    ensures Scan(Escape(v) + ("\"" + tail)) == v <==> Plain(v)
    ensures |Scan(Escape(v) + ("\"" + tail))| == |v| + 4 * BareCount(v)
  {
    ScanLength(v, tail);
    BareNone(v);
    if Plain(v) { ScanBack(v, tail); }
  }

  lemma {:induction false} ScanLength(v: string, tail: string)
    ensures |Scan(Escape(v) + ("\"" + tail))| == |v| + 4 * BareCount(v)
    decreases |v|
  {
    if v == "" {
      assert "" + ("\"" + tail) == "\"" + tail;
    } else {
      EscapeHead(v, "\"" + tail);
      if IsBare(v[0]) {
        ScanBare(v[0], Escape(v[1..]) + ("\"" + tail));
      } else {
        ScanSafe(v[0], Escape(v[1..]) + ("\"" + tail));
      }
      ScanLength(v[1..], tail);
    }
  }

  lemma {:induction false} ScanBack(v: string, tail: string)
    requires Plain(v)
    ensures Scan(Escape(v) + ("\"" + tail)) == v
    decreases |v|
  {
    if v == "" {
      assert "" + ("\"" + tail) == "\"" + tail;
    } else {
      EscapeHead(v, "\"" + tail);
      ScanSafe(v[0], Escape(v[1..]) + ("\"" + tail));
      forall i | 0 <= i < |v[1..]| ensures !IsBare(v[1..][i]) { assert v[1..][i] == v[i + 1]; }
      ScanBack(v[1..], tail);
      assert v == [v[0]] + v[1..];
    }
  }

  // ----- finding a key -----

  predicate IsLetter(c: char) {
    'a' <= c <= 'z' || c == '_'
  }

  predicate IsWord(k: string) {
    forall i :: 0 <= i < |k| ==> IsLetter(k[i])
  }

  predicate IsKey(k: string) {
    |k| > 0 && IsWord(k)
  }

  lemma {:induction false} SkipQuoteless(a: string, rest: string, pat: string)
    requires '\"' !in a && pat != "" && pat[0] == '\"'
    ensures From(a + rest, pat) == From(rest, pat)
    decreases |a|
  {
    if a == "" {
      assert "" + rest == rest;
    } else {
      assert (a + rest)[0] == a[0] && (a + rest)[1..] == a[1..] + rest;
      SkipQuoteless(a[1..], rest, pat);
    }
  }

  /** Every quote inside an escaped value follows a backslash, so a word and a
      quote can only be the whole value. */
  lemma {:induction false} WordAndQuote(k: string, v: string, tail: string)
    requires IsWord(k) && k + "\"" <= Escape(v) + ("\"" + tail)
    ensures v == k && Escape(v) == k
    decreases |v|
  {
    var t := Escape(v) + ("\"" + tail);
    var p := k + "\"";
    assert p[0] == t[0];
    if v == "" {
      assert t == "\"" + tail;
    } else {
      EscapeHead(v, "\"" + tail);
      assert t[0] == EscapeChar(v[0])[0];
      assert k != "";
      assert EscapeChar(v[0]) == [v[0]] && v[0] == k[0];
      assert t[1..] == Escape(v[1..]) + ("\"" + tail);
      assert p[1..] == k[1..] + "\"";
      assert p[1..] <= t[1..];
      WordAndQuote(k[1..], v[1..], tail);
    }
  }

  /** The text after a value starts a new field or ends the object. */
  predicate Stops(tail: string) {
    tail != "" && (tail[0] == ',' || tail[0] == '\n')
  }

  lemma SkipQuoteKey(rest: string, k: string)
    requires IsKey(k) && !(k + "\":" <= rest)
    ensures From("\"" + rest, Pattern(k)) == From(rest, Pattern(k))
  {
    assert ("\"" + rest)[1..] == rest;
  }

  /** A value is never taken for a key: no colon follows its closing quote. */
  lemma KeyMiss(k: string, v: string, tail: string)
    requires IsKey(k) && Stops(tail)
    ensures !(k + "\":" <= Escape(v) + ("\"" + tail))
  {
    var t := Escape(v) + ("\"" + tail);
    assert t[|Escape(v)| + 1] == tail[0];
    if k + "\":" <= t {
      KeyAhead(k, t);
      WordAndQuote(k, v, tail);
    }
  }

  lemma KeyAhead(k: string, t: string)
    requires k + "\":" <= t
    ensures k + "\"" <= t && |t| > |k| + 1 && t[|k| + 1] == ':'
  {
    assert (k + "\":")[..|k| + 1] == k + "\"";
    assert (k + "\":")[|k| + 1] == ':';
  }

  /** Past one escaped character, whether or not it holds a quote. */
  lemma SkipChar(c: char, rest: string, k: string)
    requires IsKey(k) && !(k + "\":" <= rest)
    ensures From(EscapeChar(c) + rest, Pattern(k)) == From(rest, Pattern(k))
  {
    if c == '\"' {
      assert EscapeChar(c) + rest == "\\" + ("\"" + rest);
      SkipQuoteless("\\", "\"" + rest, Pattern(k));
      SkipQuoteKey(rest, k);
    } else {
      SkipQuoteless(EscapeChar(c), rest, Pattern(k));
    }
  }

  lemma {:induction false} SkipValue(v: string, tail: string, k: string)
    requires IsKey(k) && Stops(tail)
    ensures From("\"" + (Escape(v) + ("\"" + tail)), Pattern(k)) == From(tail, Pattern(k))
    decreases |v|
  {
    var close := "\"" + tail;
    KeyMiss(k, v, tail);
    SkipQuoteKey(Escape(v) + close, k);
    if v == "" {
      assert "" + close == close;
      assert (k + "\":")[0] == k[0];
      SkipQuoteKey(tail, k);
    } else {
      EscapeHead(v, close);
      KeyMiss(k, v[1..], tail);
      SkipChar(v[0], Escape(v[1..]) + close, k);
      SkipValue(v[1..], tail, k);
      SkipQuoteKey(Escape(v[1..]) + close, k);
    }
  }

  lemma {:induction false} EscapeWord(k: string)
    requires IsWord(k)
    ensures Escape(k) == k
    decreases |k|
  {
    if k != "" {
      EscapeWord(k[1..]);
      assert k == [k[0]] + k[1..];
    }
  }

  /** Looking for another key passes over a key and a colon. */
  lemma OpenMiss(key: string, x: string, k: string)
    requires IsKey(key) && IsKey(k) && key != k
    ensures From(Open(key) + x, Pattern(k)) == From("\"" + x, Pattern(k))
  {
    var afterKey := "\"" + (": " + ("\"" + x));
    OpenText(key, x);
    SkipQuoteless("      ", "\"" + (key + afterKey), Pattern(k));
    OtherWord(k, key, ": " + ("\"" + x));
    SkipQuoteKey(key + afterKey, k);
    SkipQuoteless(key, afterKey, Pattern(k));
    assert (k + "\":")[0] == k[0] && (": " + ("\"" + x))[0] == ':';
    SkipQuoteKey(": " + ("\"" + x), k);
    SkipQuoteless(": ", "\"" + x, Pattern(k));
  }

  lemma OtherWord(k: string, key: string, rest: string)
    requires IsKey(k) && IsKey(key) && k != key
    ensures !(k + "\":" <= key + ("\"" + rest))
  {
    EscapeWord(key);
    if k + "\":" <= key + ("\"" + rest) {
      KeyAhead(k, key + ("\"" + rest));
      WordAndQuote(k, key, rest);
    }
  }

  /** Looking for another key passes over a whole field. */
  lemma FieldMiss(key: string, v: string, tail: string, k: string)
    requires IsKey(key) && IsKey(k) && key != k && Stops(tail)
    ensures From(Field(key, v, tail), Pattern(k)) == From(tail, Pattern(k))
  {
    OpenMiss(key, Escape(v) + ("\"" + tail), k);
    SkipValue(v, tail, k);
  }

  /** The key looked for leads to the text behind its opening quote. */
  lemma OpenHit(k: string, x: string)
    requires IsKey(k)
    ensures StringField(Open(k) + x, k) == Scan(x)
  {
    var rest := " " + ("\"" + x);
    OpenText(k, x);
    PatternText(k, rest);
    SkipQuoteless("      ", Pattern(k) + rest, Pattern(k));
    ValueAfter(Pattern(k), x);
  }

  lemma OpenText(k: string, x: string)
    ensures Open(k) + x == "      " + ("\"" + (k + ("\"" + (": " + ("\"" + x)))))
  {
  }

  lemma PatternText(k: string, rest: string)
    requires rest != "" && rest[0] == ' '
    ensures Pattern(k) + rest == "\"" + (k + ("\"" + (":" + rest)))
    ensures ":" + rest == ": " + rest[1..]
  {
    assert rest == " " + rest[1..];
  }

  /** Behind the pattern: a blank, a quote, and the value. */
  lemma ValueAfter(pat: string, x: string)
    ensures var text := pat + (" " + ("\"" + x));
            text[|pat|..] == " " + ("\"" + x) && SkipBlanks(" " + ("\"" + x)) == "\"" + x && ("\"" + x)[1..] == x
  {
    var rest := " " + ("\"" + x);
    assert rest[1..] == "\"" + x;
    assert SkipBlanks("\"" + x) == "\"" + x && SkipBlanks(rest) == SkipBlanks(rest[1..]);
  }

  predicate KeysOk(ps: seq<(string, string)>) {
    && (forall i :: 0 <= i < |ps| ==> IsKey(ps[i].0))
    && (forall i, j :: 0 <= i < j < |ps| ==> ps[i].0 != ps[j].0)
  }

  lemma {:induction false} FieldsTail(ps: seq<(string, string)>, tail: string, more: string)
    ensures Fields(ps, tail) + more == Fields(ps, tail + more)
    decreases |ps|
  {
    if |ps| > 0 {
      var rest := if |ps| == 1 then tail else ",\n" + Fields(ps[1..], tail);
      var rest' := if |ps| == 1 then tail + more else ",\n" + Fields(ps[1..], tail + more);
      FieldsTail(ps[1..], tail, more);
      assert rest + more == rest';
      FieldTail(ps[0].0, ps[0].1, rest, more);
    }
  }

  lemma FieldTail(key: string, v: string, tail: string, more: string)
    ensures Field(key, v, tail) + more == Field(key, v, tail + more)
  {
  }

  lemma KeysAreOk(g: Logged)
    ensures KeysOk(Pairs(g))
  {
    var ps := Pairs(g);
    assert ps[0].0[0] == 'l' && ps[1].0[0] == 't' && ps[2].0[..2] == "so" && ps[3].0[..2] == "st"
           && ps[4].0[..2] == "sm";
    assert "so"[1] == 'o' && "st"[1] == 't' && "sm"[1] == 'm';
  }

  // ----- cutting the array into objects -----

  lemma {:induction false} CutAt(a: string, c: char, rest: string)
    requires c !in a
    ensures Cut(a + ([c] + rest), c) == Some((a, rest))
    decreases |a|
  {
    var s := a + ([c] + rest);
    if a == "" {
      assert s == [c] + rest && s[1..] == rest;
    } else {
      assert s[0] == a[0] && s[1..] == a[1..] + ([c] + rest);
      CutAt(a[1..], c, rest);
      assert a == [a[0]] + a[1..];
    }
  }

  /** Cutting after a part without the character. */
  lemma {:induction false} CutLater(a: string, rest: string, c: char)
    requires c !in a && Cut(rest, c).Some?
    ensures Cut(a + rest, c) == Some((a + Cut(rest, c).value.0, Cut(rest, c).value.1))
  {
    var (b, d) := Cut(rest, c).value;
    CutParts(rest, c);
    assert a + rest == (a + b) + ([c] + d);
    CutAt(a + b, c, d);
  }

  /** Brackets are printed as they are, and no escape makes one. */
  lemma {:induction false} EscapeKeeps(v: string, c: char)
    requires c == '}' || c == ']'
    ensures c in Escape(v) <==> c in v
    decreases |v|
  {
    if v != "" {
      EscapeKeeps(v[1..], c);
      assert v == [v[0]] + v[1..];
      EscapeCharKeeps(v[0], c);
    }
  }

  lemma EscapeCharKeeps(d: char, c: char)
    requires c == '}' || c == ']'
    ensures c in EscapeChar(d) <==> c == d
  {
    if IsBare(d) {
      var a, b := HexDigit(d as int / 16), HexDigit(d as int % 16);
      assert EscapeChar(d) == ['\\', 'u', '0', '0', a, b];
    }
  }

  predicate Without(g: Logged, c: char) {
    forall i :: 0 <= i < 5 ==> c !in Pairs(g)[i].1
  }

  lemma {:induction false} FieldsKeep(ps: seq<(string, string)>, tail: string, c: char)
    requires (c == '}' || c == ']') && forall i :: 0 <= i < |ps| ==> IsKey(ps[i].0)
    ensures c in Fields(ps, tail) <==> c in tail || exists i :: 0 <= i < |ps| && c in ps[i].1
    decreases |ps|
  {
    if |ps| > 0 {
      FieldsKeep(ps[1..], tail, c);
      EscapeKeeps(ps[0].1, c);
      assert c !in ps[0].0;
      var next := if |ps| == 1 then tail else ",\n" + Fields(ps[1..], tail);
      FieldKeeps(ps[0].0, ps[0].1, next, c);
      assert forall i :: 1 <= i < |ps| ==> ps[i] == ps[1..][i - 1];
      assert (exists i :: 0 <= i < |ps| && c in ps[i].1)
             <==> c in ps[0].1 || (exists i :: 0 <= i < |ps[1..]| && c in ps[1..][i].1) by {
        if i :| 0 <= i < |ps[1..]| && c in ps[1..][i].1 { assert c in ps[i + 1].1; }
      }
    }
  }

  lemma FieldKeeps(key: string, v: string, tail: string, c: char)
    requires (c == '}' || c == ']') && c !in key
    ensures c in Field(key, v, tail) <==> c in Escape(v) || c in tail
  {
    assert c !in "      " && c !in "\"" && c !in ": ";
  }

  lemma InsideKeeps(g: Goal, c: char)
    requires c == '}' || c == ']'
    ensures c in Inside(g) <==> !Without(g.logged, c)
  {
    KeysAreOk(g.logged);
    FieldsKeep(Pairs(g.logged), Ending(g), c);
    assert c !in "\n" && c !in ",\n      \"disagreement\": true" && c !in "\n    ";
    assert Inside(g) == "\n" + Fields(Pairs(g.logged), Ending(g));
  }

  lemma OneObject(a: string, x: string)
    requires '{' !in a && '}' in x
    ensures var (m, rest) := Cut(x, '}').value;
            ReadObjects(a + ("{" + x)) == [ReadGoal("{" + m + "}")] + ReadObjects(rest)
  {
    CutAt(a, '{', x);
  }

  function LoggedOf(gs: seq<Goal>): (ls: seq<Logged>)
    ensures |ls| == |gs| && forall i :: 0 <= i < |gs| ==> ls[i] == gs[i].logged
  {
    seq(|gs|, i requires 0 <= i < |gs| => gs[i].logged)
  }

  // ----- one printed goal, cut at the first closing brace -----

  /** The values come back: no bare control byte, and a closing brace only as
      the last character of a value after which all values are empty. */
  predicate Good(ps: seq<(string, string)>) {
    |ps| == 0 ||
    if '}' in ps[0].1 then
      Cut(ps[0].1, '}').value.1 == "" && Plain(Cut(ps[0].1, '}').value.0) && forall i :: 1 <= i < |ps| ==> ps[i].1 == ""
    else Plain(ps[0].1) && Good(ps[1..])
  }

  predicate ReadsAll(t: string, ps: seq<(string, string)>) {
    forall i :: 0 <= i < |ps| ==> StringField(t, ps[i].0) == ps[i].1
  }

  lemma {:induction false} EscapeConcat(a: string, b: string)
    ensures Escape(a + b) == Escape(a) + Escape(b)
    decreases |a|
  {
    if a == "" {
      assert a + b == b;
    } else {
      assert (a + b)[0] == a[0] && (a + b)[1..] == a[1..] + b;
      EscapeConcat(a[1..], b);
    }
  }

  lemma PlainCons(v: string)
    requires v != ""
    ensures Plain(v) <==> !IsBare(v[0]) && Plain(v[1..])
  {
    BareNone(v); BareNone(v[1..]);
  }

  /** A value cut off at a brace, without its closing quote. */
  lemma {:induction false} ScanCut(u: string, x: string)
    ensures Scan(Escape(u) + "}") == u + x <==> Plain(u) && x == "}"
    decreases |u|
  {
    if u == "" {
      ScanBrace(x);
    } else {
      ScanCut(u[1..], x);
      PlainCons(u);
      EscapeHead(u, "}");
      if IsBare(u[0]) { ScanBareHead(u[0], Escape(u[1..]) + "}"); } else { ScanSafe(u[0], Escape(u[1..]) + "}"); }
      SameTail(u, x, Scan(Escape(u[1..]) + "}"));
    }
  }

  lemma ScanBrace(x: string)
    ensures Scan(Escape("") + "}") == "" + x <==> x == "}"
  {
    ScanPlainChar('}', "");
    assert ['}'] + "" == "}" && Escape("") + "}" == "}" && "" + x == x;
  }

  lemma ScanBareHead(c: char, rest: string)
    requires IsBare(c)
    ensures var t := Scan(EscapeChar(c) + rest); t != "" && t[0] == 'u' != c
  {
    assert (EscapeChar(c) + rest)[0] == '\\' && (EscapeChar(c) + rest)[1] == 'u';
  }

  lemma SameTail(u: string, x: string, y: string)
    requires u != ""
    ensures (u + x)[0] == u[0] && ([u[0]] + y == u + x <==> y == u[1..] + x)
  {
    assert (u + x)[1..] == u[1..] + x && ([u[0]] + y)[1..] == y;
    if y == u[1..] + x { assert u + x == [u[0]] + (u[1..] + x); }
  }

  /** More text behind it does not hide an occurrence. */
  lemma {:induction false} FromMore(s: string, more: string, pat: string)
    requires From(s, pat).Some?
    ensures From(s + more, pat).Some?
    decreases |s|
  {
    if !(pat <= s) {
      assert (s + more)[1..] == s[1..] + more;
      FromMore(s[1..], more, pat);
    } else {
      assert pat <= s + more;
    }
  }

  lemma OpenQuiet(key: string)
    requires IsKey(key)
    ensures '}' !in Open(key) && '{' !in Open(key) && ']' !in Open(key)
  {
    assert '}' !in key && '{' !in key && ']' !in key;
  }

  lemma Assoc(a: string, b: string, c: string, d: string)
    ensures a + (b + (c + d)) == (a + (b + c)) + d && a + (b + (c + d)) == (a + b) + (c + d)
  {
  }

  lemma Assoc3(a: string, b: string, c: string)
    ensures a + (b + c) == (a + b) + c
  {
  }

  lemma AssocMid(a: string, b: string, c: string, d: string, e: string)
    ensures a + ((b + (c + d)) + e) == (a + b) + (c + (d + e))
  {
  }

  /** A field cut at a brace in its value. */
  lemma CutInValue(key: string, v: string, next: string)
    requires IsKey(key) && '}' in v
    ensures var (u, w) := Cut(v, '}').value;
            Cut(Field(key, v, next), '}') == Some((Open(key) + Escape(u), Escape(w) + ("\"" + next)))
  {
    CutParts(v, '}');
    var (u, w) := Cut(v, '}').value;
    EscapeAtBrace(u, w);
    EscapeKeeps(u, '}');
    OpenQuiet(key);
    AssocMid(Open(key), Escape(u), "}", Escape(w), "\"" + next);
    CutAt(Open(key) + Escape(u), '}', Escape(w) + ("\"" + next));
  }

  lemma EscapeAtBrace(u: string, w: string)
    ensures Escape(u + ("}" + w)) == Escape(u) + ("}" + Escape(w))
  {
    EscapeConcat(u, "}" + w);
    EscapeConcat("}", w);
    assert Escape("}") == "}" by { assert "}"[1..] == ""; }
  }

  lemma CutValueRead(key: string, v: string)
    requires IsKey(key) && '}' in v
    ensures var (u, w) := Cut(v, '}').value;
            StringField(Open(key) + Escape(u) + "}", key) == v <==> Plain(u) && w == ""
  {
    CutParts(v, '}');
    var (u, w) := Cut(v, '}').value;
    assert Open(key) + Escape(u) + "}" == Open(key) + (Escape(u) + "}");
    OpenHit(key, Escape(u) + "}");
    ScanCut(u, "}" + w);
    assert |"}" + w| == 1 + |w|;
  }

  lemma OtherKeyCut(key: string, u: string, k: string)
    requires IsKey(key) && IsKey(k) && k != key
    ensures StringField(Open(key) + Escape(u) + "}", k) == ""
  {
    var t := Open(key) + Escape(u) + "}";
    EscapeConcat(u, "}");
    assert Escape("}") == "}" by { assert "}"[1..] == ""; }
    CutPlusQuote(Open(key), Escape(u));
    FieldMiss(key, u + "}", ",", k);
    NoneInComma(k);
    if From(t, Pattern(k)).Some? { FromMore(t, "\"" + ",", Pattern(k)); }
  }

  lemma CutPlusQuote(a: string, e: string)
    ensures a + e + "}" + ("\"" + ",") == a + ((e + "}") + ("\"" + ","))
  {
  }

  lemma NoneInComma(k: string)
    ensures From(",", Pattern(k)).None?
  {
    SkipQuoteless(",", "", Pattern(k));
    assert "," + "" == ",";
  }

  lemma StopsCut(tail: string)
    requires Stops(tail) && '}' in tail
    ensures Stops(Cut(tail, '}').value.0 + "}")
  {
    CutParts(tail, '}');
    var (a, b) := Cut(tail, '}').value;
    assert tail[0] == (a + ("}" + b))[0];
  }

  /** The values read from a printed goal, cut at its first brace, are the
      printed ones exactly when they are good. */
  lemma {:induction false} CutFields(ps: seq<(string, string)>, tail: string)
    requires KeysOk(ps) && |ps| > 0 && Stops(tail) && '}' in tail
    ensures '}' in Fields(ps, tail)
    ensures ReadsAll(Cut(Fields(ps, tail), '}').value.0 + "}", ps) <==> Good(ps)
    decreases |ps|
  {
    var (key, v) := ps[0];
    var next := if |ps| == 1 then tail else ",\n" + Fields(ps[1..], tail);
    if '}' in v {
      CutInValue(key, v, next);
      CutValueRead(key, v);
      CutParts(v, '}');
      var (u, w) := Cut(v, '}').value;
      var t := Open(key) + Escape(u) + "}";
      forall i | 1 <= i < |ps| ensures StringField(t, ps[i].0) == "" { OtherKeyCut(key, u, ps[i].0); }
    } else {
      if |ps| > 1 { CutFields(ps[1..], tail); CutLater(",\n", Fields(ps[1..], tail), '}'); }
      StopsCut(next);
      CutAfterField(key, v, next);
      var m := Cut(next, '}').value.0;
      var t := Field(key, v, m + "}");
      FieldRead(key, v, m + "}");
      if |ps| > 1 { ReadsLater(ps, v, m, Cut(Fields(ps[1..], tail), '}').value.0); }
    }
  }

  lemma FieldRead(key: string, v: string, tail: string)
    requires IsKey(key)
    ensures StringField(Field(key, v, tail), key) == v <==> Plain(v)
  {
    OpenHit(key, Escape(v) + ("\"" + tail));
    ScanEscape(v, tail);
  }

  lemma CutAfterField(key: string, v: string, next: string)
    requires IsKey(key) && '}' !in v && '}' in next
    ensures Cut(Field(key, v, next), '}') == Some((Field(key, v, Cut(next, '}').value.0), Cut(next, '}').value.1))
    ensures Field(key, v, Cut(next, '}').value.0) + "}" == Field(key, v, Cut(next, '}').value.0 + "}")
  {
    EscapeKeeps(v, '}');
    OpenQuiet(key);
    var f := Open(key) + (Escape(v) + "\"");
    var m := Cut(next, '}').value.0;
    CutLater(f, next, '}');
    Assoc(Open(key), Escape(v), "\"", next);
    Assoc(Open(key), Escape(v), "\"", m);
    FieldTail(key, v, m, "}");
  }

  /** The other keys are found behind the first field. */
  lemma ReadsLater(ps: seq<(string, string)>, v: string, m: string, m1: string)
    requires KeysOk(ps) && |ps| > 1 && m == ",\n" + m1
    ensures ReadsAll(Field(ps[0].0, v, m + "}"), ps) <==>
      StringField(Field(ps[0].0, v, m + "}"), ps[0].0) == ps[0].1 && ReadsAll(m1 + "}", ps[1..])
  {
    var t := Field(ps[0].0, v, m + "}");
    forall i | 1 <= i < |ps| ensures StringField(t, ps[i].0) == StringField(m1 + "}", ps[i].0) {
      FieldMiss(ps[0].0, v, m + "}", ps[i].0);
      assert m + "}" == ",\n" + (m1 + "}");
      SkipQuoteless(",\n", m1 + "}", Pattern(ps[i].0));
    }
    forall i | 1 <= i < |ps| ensures ps[i] == ps[1..][i - 1] {}
    if ReadsAll(m1 + "}", ps[1..]) && StringField(t, ps[0].0) == ps[0].1 {
      forall i | 0 <= i < |ps| ensures StringField(t, ps[i].0) == ps[i].1 {
        if i > 0 { assert ps[1..][i - 1].0 == ps[i].0; }
      }
    }
    if ReadsAll(t, ps) {
      forall i | 0 <= i < |ps[1..]|
        ensures StringField(m1 + "}", ps[1..][i].0) == ps[1..][i].1
      {
        assert ps[1..][i] == ps[i + 1];
      }
    }
  }

  /** What follows the cut of a good goal starts no new object. */
  lemma {:induction false} CutRemainder(ps: seq<(string, string)>, quiet: string, more: string) returns (lead: string)
    requires KeysOk(ps) && |ps| > 0 && Good(ps) && '}' !in quiet && '{' !in quiet && ']' !in quiet
    ensures '}' in Fields(ps, quiet + ("}" + more)) && Cut(Fields(ps, quiet + ("}" + more)), '}').value.1 == lead + more
    ensures '{' !in lead && ']' !in lead
    decreases |ps|
  {
    var (key, v) := ps[0];
    var tail := quiet + ("}" + more);
    var next := if |ps| == 1 then tail else ",\n" + Fields(ps[1..], tail);
    if '}' in v {
      CutInValue(key, v, next);
      lead := EmptiesQuiet(ps, quiet, more);
    } else {
      if |ps| == 1 {
        CutAt(quiet, '}', more);
        lead := "";
        assert lead + more == more;
      } else {
        lead := CutRemainder(ps[1..], quiet, more);
        CutLater(",\n", Fields(ps[1..], tail), '}');
      }
      CutAfterField(key, v, next);
    }
  }

  lemma EmptiesQuiet(ps: seq<(string, string)>, quiet: string, more: string) returns (lead: string)
    requires KeysOk(ps) && |ps| > 0 && '{' !in quiet && ']' !in quiet
    requires forall i :: 1 <= i < |ps| ==> ps[i].1 == ""
    ensures var next := if |ps| == 1 then quiet + ("}" + more) else ",\n" + Fields(ps[1..], quiet + ("}" + more));
            Escape("") + ("\"" + next) == lead + more
    ensures '{' !in lead && ']' !in lead
  {
    var tail := quiet + "}";
    assert quiet + ("}" + more) == tail + more && Escape("") == "";
    if |ps| == 1 {
      lead := "\"" + tail;
      Assoc3("\"", tail, more);
    } else {
      FieldsTail(ps[1..], tail, more);
      EmptyFields(ps[1..], tail);
      var f := Fields(ps[1..], tail);
      lead := "\"" + (",\n" + f);
      Assoc("\"", ",\n", f, more);
    }
  }

  lemma {:induction false} EmptyFields(ps: seq<(string, string)>, tail: string)
    requires (forall i :: 0 <= i < |ps| ==> IsKey(ps[i].0) && ps[i].1 == "") && '{' !in tail && ']' !in tail
    ensures '{' !in Fields(ps, tail) && ']' !in Fields(ps, tail)
    decreases |ps|
  {
    if |ps| > 0 {
      EmptyFields(ps[1..], tail);
      assert '{' !in ps[0].0 && ']' !in ps[0].0 && Escape("") == "";
    }
  }

  // ----- finding the array -----

  const ARRAY := "\"goals\""

  predicate IsStamp(stamp: string) {
    forall i :: 0 <= i < |stamp| ==> '0' <= stamp[i] <= '9' || stamp[i] == '-'
  }

  lemma SkipQuoteGoals(rest: string)
    requires rest == "" || rest[0] != 'g'
    ensures From("\"" + rest, ARRAY) == From(rest, ARRAY)
  {
    assert ("\"" + rest)[1..] == rest;
    assert ARRAY[1] == 'g';
  }

  lemma SkipHead(rest: string)
    ensures From(Head(rest), ARRAY) == From(rest, ARRAY)
  {
    var r5 := ": " + rest;
    var r4 := "source" + ("\"" + r5);
    var r3 := ": 1,\n  " + ("\"" + r4);
    var r2 := "version" + ("\"" + r3);
    SkipQuoteless("{\n  ", "\"" + r2, ARRAY);
    SkipQuoteGoals(r2);
    SkipQuoteless("version", "\"" + r3, ARRAY);
    SkipQuoteGoals(r3);
    SkipQuoteless(": 1,\n  ", "\"" + r4, ARRAY);
    SkipQuoteGoals(r4);
    SkipQuoteless("source", "\"" + r5, ARRAY);
    SkipQuoteGoals(r5);
    SkipQuoteless(": ", rest, ARRAY);
  }

  lemma MiddleIsQuiet(stamp: string, rest: string)
    requires IsStamp(stamp)
    ensures From("\"" + Middle(stamp, rest), ARRAY) == From(rest, ARRAY)
  {
    var r3 := stamp + (",\n  " + rest);
    var r2 := "timestamp" + ("\"" + (": " + r3));
    SkipQuoteGoals(",\n  " + ("\"" + r2));
    SkipQuoteless(",\n  ", "\"" + r2, ARRAY);
    SkipQuoteGoals(r2);
    SkipQuoteless("timestamp", "\"" + (": " + r3), ARRAY);
    SkipQuoteGoals(": " + r3);
    SkipQuoteless(": ", r3, ARRAY);
    SkipQuoteless(stamp, ",\n  " + rest, ARRAY);
    SkipQuoteless(",\n  ", rest, ARRAY);
  }

  lemma MiddleHasNoBracket(stamp: string, rest: string)
    requires IsStamp(stamp) && '[' in rest
    ensures '[' in Middle(stamp, rest) && Cut(Middle(stamp, rest), '[').value.1 == Cut(rest, '[').value.1
  {
    var r4 := stamp + (",\n  " + rest);
    var r3 := "\"" + (": " + r4);
    CutLater(",\n  ", rest, '[');
    CutLater(stamp, ",\n  " + rest, '[');
    CutLater(": ", r4, '[');
    CutLater("\"", ": " + r4, '[');
    CutLater("timestamp", r3, '[');
    CutLater("\"", "timestamp" + r3, '[');
    CutLater(",\n  ", "\"" + ("timestamp" + r3), '[');
  }

  /** The source path may itself end in the word looked for; the search then
      stops at its closing quote, and otherwise goes on behind it. */
  lemma {:induction false} PastSource(v: string, tail: string)
    ensures var r := From(Escape(v) + ("\"" + tail), ARRAY);
            r == From("\"" + tail, ARRAY) || r == Some(ARRAY + tail)
    ensures var r := From("\"" + (Escape(v) + ("\"" + tail)), ARRAY);
            r == From("\"" + tail, ARRAY) || r == Some(ARRAY + tail)
    decreases |v|
  {
    var close := "\"" + tail;
    if v == "" {
      assert Escape(v) + close == close;
    } else {
      EscapeHead(v, close);
      PastSource(v[1..], tail);
      SkipToNext(v[0], Escape(v[1..]) + close);
    }
    AtOpeningQuote(v, tail);
  }

  lemma AtOpeningQuote(v: string, tail: string)
    ensures var rest := Escape(v) + ("\"" + tail);
            From("\"" + rest, ARRAY) == From(rest, ARRAY) || From("\"" + rest, ARRAY) == Some(ARRAY + tail)
  {
    var rest := Escape(v) + ("\"" + tail);
    var s := "\"" + rest;
    assert s[1..] == rest;
    if ARRAY <= s {
      assert ARRAY[1..] == "goals" + "\"";
      assert "goals" + "\"" <= rest;
      WordAndQuote("goals", v, tail);
      assert s == ARRAY + tail;
    }
  }

  lemma SkipToNext(c: char, next: string)
    ensures From(EscapeChar(c) + next, ARRAY) == From(next, ARRAY)
        || From(EscapeChar(c) + next, ARRAY) == From("\"" + next, ARRAY)
  {
    if c == '\"' {
      assert EscapeChar(c) + next == "\\" + ("\"" + next);
      SkipQuoteless("\\", "\"" + next, ARRAY);
    } else {
      SkipQuoteless(EscapeChar(c), next, ARRAY);
    }
  }

  // ----- the round trip -----

  /** What the array cut out of a printed log begins with. */
  lemma ArrayFound(gs: seq<Goal>, source: string, stamp: string)
    requires IsStamp(stamp)
    ensures var arr := From(LogText(gs, source, stamp), ARRAY);
            arr.Some? && Cut(arr.value, '[').Some? && Cut(arr.value, '[').value.1 == "\n" + GoalsText(gs, "  ]\n}\n")
  {
    ArrayFoundIn("\n" + GoalsText(gs, "  ]\n}\n"), source, stamp);
  }

  /** The search for the array in the text before it. */
  lemma ArrayFoundIn(goals: string, source: string, stamp: string)
    requires IsStamp(stamp)
    ensures var key := ARRAY + (": [" + goals);
            var arr := From(Head("\"" + (Escape(source) + ("\"" + Middle(stamp, key)))), ARRAY);
            arr.Some? && Cut(arr.value, '[').Some? && Cut(arr.value, '[').value.1 == goals
  {
    var key := ARRAY + (": [" + goals);
    KeyBracket(goals);
    SkipHead("\"" + (Escape(source) + ("\"" + Middle(stamp, key))));
    PastSource(source, Middle(stamp, key));
    MiddleIsQuiet(stamp, key);
    MiddleHasNoBracket(stamp, key);
    CutLater(ARRAY, Middle(stamp, key), '[');
  }

  lemma KeyBracket(rest: string)
    ensures From(ARRAY + (": [" + rest), ARRAY) == Some(ARRAY + (": [" + rest))
    ensures '[' in ARRAY + (": [" + rest) && Cut(ARRAY + (": [" + rest), '[').value.1 == rest
  {
    assert ": [" + rest == ": " + ("[" + rest);
    CutAt(": ", '[', rest);
    CutLater(ARRAY, ": [" + rest, '[');
  }

  /** What is read from a text consists of its characters, brackets at least. */
  lemma {:induction false} ScanBrackets(s: string)
    requires ']' !in s
    ensures ']' !in Scan(s)
    decreases |s|
  {
    if s != "" && s[0] != '\"' {
      if s[0] == '\\' && |s| > 1 { ScanBrackets(s[2..]); } else { ScanBrackets(s[1..]); }
    }
  }

  lemma {:induction false} FromBrackets(s: string, pat: string)
    requires ']' !in s && From(s, pat).Some?
    ensures ']' !in From(s, pat).value
    decreases |s|
  {
    if !(pat <= s) { FromBrackets(s[1..], pat); }
  }

  lemma {:induction false} BlanksBrackets(s: string)
    requires ']' !in s
    ensures ']' !in SkipBlanks(s)
    decreases |s|
  {
    if s != "" { BlanksBrackets(s[1..]); }
  }

  lemma FieldBrackets(obj: string, k: string)
    requires ']' !in obj
    ensures ']' !in StringField(obj, k)
  {
    var at := From(obj, Pattern(k));
    if at.Some? {
      FromBrackets(obj, Pattern(k));
      var rest := at.value[|Pattern(k)|..];
      BlanksBrackets(rest);
      if SkipBlanks(rest) != "" { ScanBrackets(SkipBlanks(rest)[1..]); }
    }
  }

  lemma ReadsAllIsGoal(obj: string, g: Logged)
    ensures ReadGoal(obj) == g <==> ReadsAll(obj, Pairs(g))
  {
    var ps := Pairs(g);
    var keys := ["label", "tactic", "solver", "status", "smt_file"];
    assert forall i :: 0 <= i < 5 ==> ps[i].0 == keys[i];
    if ReadsAll(obj, ps) {
      assert StringField(obj, ps[0].0) == ps[0].1 && StringField(obj, ps[1].0) == ps[1].1
             && StringField(obj, ps[2].0) == ps[2].1;
      assert StringField(obj, ps[3].0) == ps[3].1 && StringField(obj, ps[4].0) == ps[4].1;
    }
  }

  lemma TailOk(quiet: string, more: string)
    requires Stops(quiet)
    ensures Stops(quiet + ("}" + more)) && '}' in quiet + ("}" + more)
  {
    assert (quiet + ("}" + more))[0] == quiet[0];
    assert (quiet + ("}" + more))[|quiet|] == '}';
  }

  /** What cutting an object at its first brace must give. */
  ghost predicate ObjectCut(x: string, ps: seq<(string, string)>, lead: string, more: string) {
    && '}' in x && (ReadsAll("{" + Cut(x, '}').value.0 + "}", ps) <==> Good(ps))
    && (Good(ps) ==> Cut(x, '}').value.1 == lead + more && '{' !in lead && ']' !in lead)
  }

  lemma CutObject(ps: seq<(string, string)>, quiet: string, more: string) returns (lead: string)
    requires KeysOk(ps) && |ps| > 0 && '}' !in quiet && '{' !in quiet && ']' !in quiet && Stops(quiet)
    ensures ObjectCut("\n" + Fields(ps, quiet + ("}" + more)), ps, lead, more)
  {
    lead := "";
    TailOk(quiet, more);
    CutFields(ps, quiet + ("}" + more));
    if Good(ps) { lead := CutRemainder(ps, quiet, more); }
    ObjectCutFrom(ps, Fields(ps, quiet + ("}" + more)), lead, more);
  }

  lemma ObjectCutFrom(ps: seq<(string, string)>, f: string, lead: string, more: string)
    requires KeysOk(ps) && '}' in f && (ReadsAll(Cut(f, '}').value.0 + "}", ps) <==> Good(ps))
    requires Good(ps) ==> Cut(f, '}').value.1 == lead + more && '{' !in lead && ']' !in lead
    ensures ObjectCut("\n" + f, ps, lead, more)
  {
    CutLine(ps, f);
  }

  lemma CutLine(ps: seq<(string, string)>, f: string)
    requires KeysOk(ps) && '}' in f
    ensures Cut("\n" + f, '}') == Some(("\n" + Cut(f, '}').value.0, Cut(f, '}').value.1))
    ensures ReadsAll("{" + ("\n" + Cut(f, '}').value.0) + "}", ps) <==> ReadsAll(Cut(f, '}').value.0 + "}", ps)
  {
    CutLater("\n", f, '}');
    ObjectReads(Cut(f, '}').value.0, ps);
  }

  lemma ObjectReads(m: string, ps: seq<(string, string)>)
    requires KeysOk(ps)
    ensures ReadsAll("{" + ("\n" + m) + "}", ps) <==> ReadsAll(m + "}", ps)
  {
    var obj := "{" + ("\n" + m) + "}";
    assert obj == "{\n" + (m + "}");
    forall i | 0 <= i < |ps| ensures StringField(obj, ps[i].0) == StringField(m + "}", ps[i].0) {
      SkipQuoteless("{\n", m + "}", Pattern(ps[i].0));
    }
  }

  lemma EndingQuiet(g: Goal)
    ensures '}' !in Ending(g) && '{' !in Ending(g) && ']' !in Ending(g) && Stops(Ending(g))
  {
    var line := "\n    ";
    assert '}' !in line && '{' !in line && ']' !in line;
    if !g.disagreement { assert Ending(g) == line; }
  }

  /** The first printed goal: its object is read back as it was exactly when it
      is good, and then nothing is left of it that could start an object. */
  lemma FirstGoal(g: Goal, more: string) returns (lead: string)
    ensures ObjectCut(Inside(g) + ("}" + more), Pairs(g.logged), lead, more)
    ensures ReadGoal("{" + Cut(Inside(g) + ("}" + more), '}').value.0 + "}") == g.logged <==> Good(Pairs(g.logged))
  {
    InsideMore(Pairs(g.logged), Ending(g), "}" + more);
    KeysAreOk(g.logged);
    EndingQuiet(g);
    lead := CutObject(Pairs(g.logged), Ending(g), more);
    ReadsAllIsGoal("{" + Cut(Inside(g) + ("}" + more), '}').value.0 + "}", g.logged);
  }

  lemma InsideMore(ps: seq<(string, string)>, quiet: string, more: string)
    ensures ("\n" + Fields(ps, quiet)) + more == "\n" + Fields(ps, quiet + more)
  {
    FieldsTail(ps, quiet, more);
    Assoc3("\n", Fields(ps, quiet), more);
  }

  predicate GoodGoal(g: Logged) {
    Good(Pairs(g)) && Without(g, ']')
  }

  predicate GoodGoals(gs: seq<Goal>) {
    |gs| == 0 || (GoodGoal(gs[0].logged) && GoodGoals(gs[1..]))
  }

  /** A goal with a closing bracket in it does not come back. */
  lemma BracketedGoal(front: string, g: Goal)
    requires '{' !in front && !Without(g.logged, ']')
    ensures ']' in Inside(g)
    ensures var os := ReadObjects(front + ("{" + Cut(Inside(g), ']').value.0)); os == [] || os[0] != g.logged
  {
    InsideKeeps(g, ']');
    CutParts(Inside(g), ']');
    var a := Cut(Inside(g), ']').value.0;
    CutAt(front, '{', a);
    if '}' in a {
      CutParts(a, '}');
      var m := Cut(a, '}').value.0;
      var obj := "{" + m + "}";
      var i :| 0 <= i < 5 && ']' in Pairs(g.logged)[i].1;
      assert ']' !in obj;
      FieldBrackets(obj, Pairs(g.logged)[i].0);
      ReadsAllIsGoal(obj, g.logged);
    }
  }

  /** The array's text, cut at its first closing bracket, gives these goals. */
  ghost predicate Gives(text: string, gs: seq<Goal>) {
    ']' in text && ReadObjects(Cut(text, ']').value.0) == LoggedOf(gs)
  }

  /** The array, cut at its first closing bracket, gives the goals back exactly
      when they are all good. */
  lemma {:induction false} GoalsBack(lead: string, gs: seq<Goal>, tail: string, end: string)
    requires '{' !in lead && ']' !in lead && tail == "  " + ("]" + end)
    ensures ']' in lead + GoalsText(gs, tail)
    ensures Gives(lead + GoalsText(gs, tail), gs) <==> GoodGoals(gs)
    decreases |gs|
  {
    if |gs| == 0 {
      NoGoals(lead, tail, end);
    } else {
      var others := GoalsText(gs[1..], tail);
      assert ']' in tail;
      HasEnd(gs[1..], tail);
      var l := GoalsStep(lead, gs, others);
      if GoodGoal(gs[0].logged) { GoalsBack(l, gs[1..], tail, end); }
    }
  }

  lemma GoalsStep(lead: string, gs: seq<Goal>, others: string) returns (l: string)
    requires |gs| > 0 && '{' !in lead && ']' !in lead && ']' in others
    ensures var text := lead + ("    " + ("{" + (Inside(gs[0]) + ("}" + (Separator(gs) + others)))));
            ']' in text && (Gives(text, gs) <==> GoodGoal(gs[0].logged) && Gives(l + others, gs[1..]))
    ensures GoodGoal(gs[0].logged) ==> '{' !in l && ']' !in l
  {
    var rest := Separator(gs) + others;
    l := "";
    Assoc(lead, "    ", "{", Inside(gs[0]) + ("}" + rest));
    InsideKeeps(gs[0], ']');
    if ']' in Inside(gs[0]) {
      BracketedFirst(lead + "    ", gs, rest);
    } else {
      var l0 := NextGoal(lead + "    ", gs, rest);
      Assoc3(l0, Separator(gs), others);
      l := l0 + Separator(gs);
    }
  }

  lemma NoGoals(lead: string, tail: string, end: string)
    requires '{' !in lead && ']' !in lead && tail == "  " + ("]" + end)
    ensures ']' in lead + tail && Gives(lead + tail, [])
  {
    Assoc3(lead, "  ", "]" + end);
    CutAt(lead + "  ", ']', end);
    assert '{' !in lead + "  " && ReadObjects(lead + "  ") == [] && LoggedOf([]) == [];
  }

  lemma BracketedFirst(front: string, gs: seq<Goal>, rest: string)
    requires |gs| > 0 && '{' !in front && ']' !in front && ']' in Inside(gs[0]) && !Without(gs[0].logged, ']')
    ensures var text := front + ("{" + (Inside(gs[0]) + ("}" + rest)));
            ']' in text && !Gives(text, gs)
  {
    BracketedGoal(front, gs[0]);
    CutWithin(front, Inside(gs[0]), "}" + rest);
    assert LoggedOf(gs)[0] == gs[0].logged;
  }

  lemma FirstOf(os: seq<Logged>, gs: seq<Goal>)
    requires |os| > 0 && |gs| > 0
    ensures os == LoggedOf(gs) <==> os[0] == gs[0].logged && os[1..] == LoggedOf(gs[1..])
  {
    assert LoggedOf(gs) == [gs[0].logged] + LoggedOf(gs[1..]);
    assert os == [os[0]] + os[1..];
  }

  lemma NextGoal(front: string, gs: seq<Goal>, rest: string) returns (l: string)
    requires |gs| > 0 && '{' !in front && ']' !in front && ']' in rest && ']' !in Inside(gs[0])
    ensures var text := front + ("{" + (Inside(gs[0]) + ("}" + rest)));
            ']' in text && (Gives(text, gs) <==> Good(Pairs(gs[0].logged)) && Gives(l + rest, gs[1..]))
    ensures Good(Pairs(gs[0].logged)) ==> '{' !in l && ']' !in l
  {
    var g, body := gs[0], Cut(rest, ']').value.0;
    CutBehind(front, Inside(g), rest);
    l := FirstGoal(g, body);
    OneObject(front, Inside(g) + ("}" + body));
    FirstOf(ReadObjects(front + ("{" + (Inside(g) + ("}" + body)))), gs);
    if Good(Pairs(g.logged)) { CutLater(l, rest, ']'); }
  }

  lemma {:induction false} HasEnd(gs: seq<Goal>, tail: string)
    requires ']' in tail
    ensures ']' in GoalsText(gs, tail)
    decreases |gs|
  {
    if |gs| > 0 { HasEnd(gs[1..], tail); }
  }

  lemma CutWithin(front: string, inside: string, rest: string)
    requires ']' !in front && ']' in inside
    ensures Cut(front + ("{" + (inside + rest)), ']').Some?
    ensures Cut(front + ("{" + (inside + rest)), ']').value.0 == front + ("{" + Cut(inside, ']').value.0)
  {
    CutParts(inside, ']');
    var (a, b) := Cut(inside, ']').value;
    var f := front + ("{" + a);
    assert front + ("{" + (inside + rest)) == f + ("]" + (b + rest)) by {
      AssocMid("{", a, "]", b, rest);
      Assoc3("{", inside, rest);
      AssocFront(front, "{", a, "]" + (b + rest));
    }
    CutAt(f, ']', b + rest);
  }

  lemma AssocFront(a: string, b: string, c: string, d: string)
    ensures a + ((b + c) + d) == (a + (b + c)) + d
  {
  }

  lemma CutBehind(front: string, inside: string, rest: string)
    requires ']' !in front && ']' !in inside && ']' in rest
    ensures Cut(front + ("{" + (inside + ("}" + rest))), ']').Some?
    ensures Cut(front + ("{" + (inside + ("}" + rest))),
                ']').value.0 == front + ("{" + (inside + ("}" + Cut(rest, ']').value.0)))
  {
    CutLater("}", rest, ']');
    CutLater(inside, "}" + rest, ']');
    CutLater("{", inside + ("}" + rest), ']');
    CutLater(front, "{" + (inside + ("}" + rest)), ']');
  }

  /** A log is read back with the same goals in the same order exactly when
      every goal is good: no field holds a control byte other than newline,
      carriage return and tab, none holds a closing bracket, and none a closing
      brace except at the end of a value behind which all values are empty. The
      source path may be anything. */
  lemma RoundTrip(gs: seq<Goal>, source: string, stamp: string)
    requires IsStamp(stamp)
    ensures Parse(LogText(gs, source, stamp)) == Goals(LoggedOf(gs)) <==> GoodGoals(gs)
  {
    ArrayFound(gs, source, stamp);
    var tail := "  ]\n}\n";
    assert tail == "  " + ("]" + tail[3..]);
    GoalsBack("\n", gs, tail, tail[3..]);
  }

  predicate AllPlain(g: Logged) {
    forall i :: 0 <= i < 5 ==> Plain(Pairs(g)[i].1)
  }

  predicate Ordinary(g: Logged) {
    AllPlain(g) && Without(g, ']') && Without(g, '}')
  }

  /** In particular, logs without brackets, braces and such control bytes come
      back. */
  lemma {:induction false} OrdinaryComesBack(gs: seq<Goal>, source: string, stamp: string)
    requires IsStamp(stamp) && forall i :: 0 <= i < |gs| ==> Ordinary(gs[i].logged)
    ensures Parse(LogText(gs, source, stamp)) == Goals(LoggedOf(gs))
  {
    RoundTrip(gs, source, stamp);
    OrdinaryIsGood(gs);
  }

  lemma {:induction false} OrdinaryIsGood(gs: seq<Goal>)
    requires forall i :: 0 <= i < |gs| ==> Ordinary(gs[i].logged)
    ensures GoodGoals(gs)
    decreases |gs|
  {
    if |gs| > 0 {
      OrdinaryIsGood(gs[1..]);
      OrdinaryPairs(Pairs(gs[0].logged));
    }
  }

  lemma {:induction false} OrdinaryPairs(ps: seq<(string, string)>)
    requires forall i :: 0 <= i < |ps| ==> Plain(ps[i].1) && '}' !in ps[i].1
    ensures Good(ps)
    decreases |ps|
  {
    if |ps| > 0 { OrdinaryPairs(ps[1..]); }
  }

  // ----- the loops -----

  method JsonEscape(s: string) returns (out: string)
    ensures out == Escape(s)
  {
    out := "";
    for i := 0 to |s|
      invariant out + Escape(s[i..]) == Escape(s)
    {
      Assoc3(out, EscapeChar(s[i]), Escape(s[i + 1..]));
      out := out + EscapeChar(s[i]);
    }
  }

  /** `jsonStringField`: `found` tells an empty value from a missing one. */
  method JsonStringField(obj: string, key: string) returns (out: string, found: bool)
    ensures out == StringField(obj, key) && (!found ==> out == "")
  {
    var at := From(obj, Pattern(key));
    if at.None? { return "", false; }
    var s := at.value[|Pattern(key)|..];
    var i := 0;
    while i < |s| && (s[i] == ' ' || s[i] == '\t')
      invariant 0 <= i <= |s| && SkipBlanks(s[i..]) == SkipBlanks(s)
    {
      i := i + 1;
    }
    if i >= |s| || s[i] != '\"' { return "", false; }
    out := ScanLoop(s[i + 1..]);
    found := true;
  }

  /** The characters up to the closing quote, escapes undone. */
  method ScanLoop(s: string) returns (out: string)
    ensures out == Scan(s)
  {
    out := "";
    var i := 0;
    while i < |s| && s[i] != '\"'
      invariant 0 <= i <= |s| && out + Scan(s[i..]) == Scan(s)
    {
      if s[i] == '\\' && i + 1 < |s| {
        assert s[i..][2..] == s[i + 2..];
        Assoc3(out, [Unescape(s[i + 1])], Scan(s[i + 2..]));
        out := out + [Unescape(s[i + 1])];
        i := i + 2;
      } else {
        assert s[i..][1..] == s[i + 1..];
        Assoc3(out, [s[i]], Scan(s[i + 1..]));
        out := out + [s[i]];
        i := i + 1;
      }
    }
  }

  method ReadLoggedGoal(obj: string) returns (g: Logged)
    ensures g == ReadGoal(obj)
  {
    var name, _ := JsonStringField(obj, "label");
    var tactic, _ := JsonStringField(obj, "tactic");
    var solver, _ := JsonStringField(obj, "solver");
    var status, _ := JsonStringField(obj, "status");
    var smtFile, _ := JsonStringField(obj, "smt_file");
    g := Logged(name, tactic, solver, status, smtFile);
  }

  /** The walk over the array's objects. */
  method ReadBody(body: string) returns (out: seq<Logged>)
    ensures out == ReadObjects(body)
  {
    out := [];
    var left := body;
    while left != ""
      invariant out + ReadObjects(left) == ReadObjects(body)
      decreases |left|
    {
      var open := Cut(left, '{');
      if open.None? { break; }
      var close := Cut(open.value.1, '}');
      if close.None? { break; }
      CutParts(left, '{'); CutParts(open.value.1, '}');
      var g := ReadLoggedGoal("{" + close.value.0 + "}");
      out := out + [g];
      left := close.value.1;
    }
  }

  /** `parseProofLog` */
  method ParseProofLog(txt: string) returns (r: Result)
    ensures r == Parse(txt)
  {
    var arr := From(txt, "\"goals\"");
    if arr.None? { return NoArray; }
    var lb := Cut(arr.value, '[');
    if lb.None? { return Malformed; }
    var rb := Cut(lb.value.1, ']');
    if rb.None? { return Malformed; }
    var goals := ReadBody(rb.value.0);
    r := Goals(goals);
  }

  /** `writeProofLog`, goal by goal. */
  method WriteGoals(gs: seq<Goal>, tail: string) returns (f: string)
    ensures f == GoalsText(gs, tail)
  {
    f := "";
    for i := 0 to |gs|
      invariant f + GoalsText(gs[i..], tail) == GoalsText(gs, tail)
    {
      var rest := gs[i..];
      var g := WriteGoal(rest[0]);
      Regroup(g, Separator(rest), f, GoalsText(rest[1..], tail), rest[0]);
      f := f + (g + (if i + 1 < |gs| then ",\n" else "\n"));
    }
    f := f + tail;
  }

  lemma Regroup(g: string, sep: string, f: string, others: string, goal: Goal)
    requires g == "    {" + Inside(goal) + "}"
    ensures f + ("    " + ("{" + (Inside(goal) + ("}" + (sep + others))))) == f + (g + sep) + others
  {
    var x := Inside(goal);
    Assoc3("}", sep, others);
    Assoc3(x, "}" + sep, others);
    Assoc3("{", x + ("}" + sep), others);
    Assoc3("    ", "{" + (x + ("}" + sep)), others);
    Assoc3(f, "    " + ("{" + (x + ("}" + sep))), others);
    assert "    " + ("{" + (x + ("}" + sep))) == g + sep;
  }

  /** `writeProofLog`: `stamp` is the time as printed. */
  method WriteProofLog(gs: seq<Goal>, source: string, stamp: string) returns (f: string)
    ensures f == LogText(gs, source, stamp)
  {
    var path := JsonEscape(source);
    f := "{\n  \"version\": 1,\n  \"source\": ";
    var goals := WriteGoals(gs, "  ]\n}\n");
    var rest := "\"" + (path + ("\"" + Middle(stamp, "\"goals\"" + (": [" + ("\n" + goals)))));
    HeadIs(rest);
    f := f + rest;
  }

  lemma HeadIs(rest: string)
    ensures Head(rest) == "{\n  \"version\": 1,\n  \"source\": " + rest
  {
  }

  method WriteGoal(g: Goal) returns (t: string)
    ensures t == "    {" + Inside(g) + "}"
  {
    t := "    {\n";
    for i := 0 to 5
      invariant t + Fields(Pairs(g.logged)[i..], Ending(g)) == "    {\n" + Fields(Pairs(g.logged), Ending(g))
    {
      var (key, v) := Pairs(g.logged)[i];
      var line := WriteField(key, v);
      NextField(t, Pairs(g.logged), i, Ending(g), line);
      t := t + (line + if i < 4 then ",\n" else "");
    }
    assert Pairs(g.logged)[5..] == [];
    var end := if g.disagreement then ",\n      \"disagreement\": true" else "";
    t := t + (end + "\n    ") + "}";
    ClosedGoal(Fields(Pairs(g.logged), Ending(g)));
  }

  lemma ClosedGoal(fields: string)
    ensures "    {\n" + fields + "}" == "    {" + ("\n" + fields) + "}"
  {
  }

  /** Writing the next field of a goal. */
  lemma NextField(t: string, ps: seq<(string, string)>, i: nat, end: string, line: string)
    requires i < |ps| && line == Open(ps[i].0) + (Escape(ps[i].1) + "\"")
    ensures t + Fields(ps[i..], end) == t + (line + if i + 1 < |ps| then ",\n" else "") + Fields(ps[i + 1..], end)
  {
    var (key, v) := ps[i];
    var rest := Fields(ps[i + 1..], end);
    assert ps[i..][0] == ps[i] && ps[i..][1..] == ps[i + 1..];
    if i + 1 < |ps| {
      FieldIs(key, v, ",\n" + rest);
      Assoc3(line, ",\n", rest);
      Assoc3(t, line + ",\n", rest);
    } else {
      FieldIs(key, v, end);
      assert rest == end && line + "" == line;
      Assoc3(t, line, rest);
    }
  }

  method WriteField(key: string, v: string) returns (t: string)
    ensures t == Open(key) + (Escape(v) + "\"")
  {
    var e := JsonEscape(v);
    t := "      \"" + key + "\": \"" + e + "\"";
  }

  lemma FieldIs(key: string, v: string, tail: string)
    ensures Field(key, v, tail) == Open(key) + (Escape(v) + "\"") + tail
  {
    Assoc(Open(key), Escape(v), "\"", tail);
  }
}
