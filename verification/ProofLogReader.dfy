/** What the reader finds in a log: the flag of a disagreement, the two errors,
    and the characters the escapes stand for. */
module ProofLogReader {
  import opened Options
  import opened ProofLog

  // ----- the flag -----

  /** `jsonBoolField` */
  function BoolField(obj: string, key: string, otherwise: bool): bool {
    BoolAt(From(obj, Pattern(key)), key, otherwise)
  }

  function BoolAt(at: Option<string>, key: string, otherwise: bool): bool
    requires at.Some? ==> Pattern(key) <= at.value
  {
    if at.None? then otherwise
    else
      var rest := SkipBlanks(at.value[|Pattern(key)|..]);
      if "true" <= rest then true else if "false" <= rest then false else otherwise
  }

  method JsonBoolField(obj: string, key: string, otherwise: bool) returns (b: bool)
    ensures b == BoolField(obj, key, otherwise)
  {
    var at := From(obj, Pattern(key));
    if at.None? { return otherwise; }
    var text := at.value[|Pattern(key)|..];
    var i := 0;
    while i < |text| && (text[i] == ' ' || text[i] == '\t')
      invariant 0 <= i <= |text| && SkipBlanks(text[i..]) == SkipBlanks(text)
    {
      assert text[i..][1..] == text[i + 1..];
      i := i + 1;
    }
    if "true" <= text[i..] { return true; }
    if "false" <= text[i..] { return false; }
    b := otherwise;
  }

  /** Looking for another key passes over all fields. */
  lemma {:induction false} FieldsMiss(ps: seq<(string, string)>, tail: string, k: string)
    requires IsKey(k) && Stops(tail) && forall i :: 0 <= i < |ps| ==> IsKey(ps[i].0) && ps[i].0 != k
    ensures From(Fields(ps, tail), Pattern(k)) == From(tail, Pattern(k))
    decreases |ps|
  {
    if |ps| > 0 {
      var rest := if |ps| == 1 then tail else ",\n" + Fields(ps[1..], tail);
      FieldMiss(ps[0].0, ps[0].1, rest, k);
      if |ps| > 1 {
        SkipQuoteless(",\n", Fields(ps[1..], tail), Pattern(k));
        FieldsMiss(ps[1..], tail, k);
      }
    }
  }

  const FLAG := "disagreement"

  lemma FlagIsKey(g: Logged)
    ensures IsKey(FLAG) && forall i :: 0 <= i < 5 ==> IsKey(Pairs(g)[i].0) && Pairs(g)[i].0 != FLAG
  {
    KeysAreOk(g);
    var ps := Pairs(g);
    assert FLAG[0] == 'd' && ps[0].0[0] == 'l' && ps[1].0[0] == 't' && ps[2].0[0] == 's' && ps[3].0[0] == 's'
           && ps[4].0[0] == 's';
  }

  /** The search for the flag goes past the fields, whatever they hold. */
  lemma PastFields(g: Goal, more: string)
    ensures From(Inside(g) + more, Pattern(FLAG)) == From(Ending(g) + more, Pattern(FLAG))
  {
    var ps, tail := Pairs(g.logged), Ending(g) + more;
    FlagIsKey(g.logged);
    FieldsTail(ps, Ending(g), more);
    assert Inside(g) + more == "\n" + Fields(ps, tail);
    SkipQuoteless("\n", Fields(ps, tail), Pattern(FLAG));
    assert Ending(g)[0] == tail[0];
    FieldsMiss(ps, tail, FLAG);
  }

  /** The flag of a written goal is found exactly where the solvers disagreed,
      and read back as it was. */
  lemma FlagReadsBack(g: Goal, otherwise: bool)
    ensures From(Inside(g), Pattern(FLAG)).Some? <==> g.disagreement
    ensures BoolField("{" + (Inside(g) + "}"), FLAG, otherwise) == (g.disagreement || otherwise)
  {
    assert Inside(g) + "" == Inside(g) && Ending(g) + "" == Ending(g);
    PastFields(g, "");
    PastFields(g, "}");
    SkipQuoteless("{", Inside(g) + "}", Pattern(FLAG));
    if g.disagreement {
      FlagFound(Ending(g), "\n    ");
      FlagFound(Ending(g) + "}", "\n    }");
    } else {
      NoFlag(Ending(g));
      NoFlag(Ending(g) + "}");
    }
  }

  lemma NoFlag(s: string)
    requires '\"' !in s
    ensures From(s, Pattern(FLAG)) == None
  {
    assert s + "" == s;
    SkipQuoteless(s, "", Pattern(FLAG));
  }

  lemma FlagFound(s: string, more: string)
    requires s == ",\n      \"disagreement\": true" + more
    ensures var at := From(s, Pattern(FLAG));
            at.Some? && BoolAt(at, FLAG, false) && BoolAt(at, FLAG, true)
  {
    var rest := " true" + more;
    var hit := Pattern(FLAG) + rest;
    KeyText(FLAG, rest, "true" + more);
    assert s == ",\n      " + hit;
    Found(",\n      ", FLAG, rest);
    assert rest[1..] == "true" + more;
    assert SkipBlanks(rest) == SkipBlanks(rest[1..]) == "true" + more;
  }

  // ----- the keys -----

  /** Each field is read back under its own key, exactly if it is plain. */
  lemma {:induction false} FieldAt(ps: seq<(string, string)>, tail: string, i: nat)
    requires KeysOk(ps) && Stops(tail) && i < |ps|
    ensures StringField(Fields(ps, tail), ps[i].0) == ps[i].1 <==> Plain(ps[i].1)
    decreases |ps|
  {
    var (key, v) := ps[0];
    var rest := if |ps| == 1 then tail else ",\n" + Fields(ps[1..], tail);
    if i == 0 {
      OpenHit(key, Escape(v) + ("\"" + rest));
      ScanEscape(v, rest);
    } else {
      var k := ps[i].0;
      FieldMiss(key, v, rest, k);
      SkipQuoteless(",\n", Fields(ps[1..], tail), Pattern(k));
      assert KeysOk(ps[1..]) && ps[1..][i - 1] == ps[i];
      FieldAt(ps[1..], tail, i - 1);
    }
  }

  /** A written goal holds its fields under these keys. */
  lemma GoalKeys(g: Goal)
    ensures var obj := "{" + (Inside(g) + "}");
            && (StringField(obj, "label") == g.logged.name <==> Plain(g.logged.name))
            && (StringField(obj, "tactic") == g.logged.tactic <==> Plain(g.logged.tactic))
            && (StringField(obj, "solver") == g.logged.solver <==> Plain(g.logged.solver))
            && (StringField(obj, "status") == g.logged.status <==> Plain(g.logged.status))
            && (StringField(obj, "smt_file") == g.logged.smtFile <==> Plain(g.logged.smtFile))
  {
    var ps := Pairs(g.logged);
    assert ps[0] == ("label", g.logged.name) && ps[1] == ("tactic", g.logged.tactic);
    assert ps[2] == ("solver", g.logged.solver) && ps[3] == ("status", g.logged.status);
    assert ps[4] == ("smt_file", g.logged.smtFile);
    GoalKey(g, ps, 0); GoalKey(g, ps, 1); GoalKey(g, ps, 2); GoalKey(g, ps, 3); GoalKey(g, ps, 4);
  }

  lemma GoalKey(g: Goal, ps: seq<(string, string)>, i: nat)
    requires ps == Pairs(g.logged) && i < |ps|
    ensures StringField("{" + (Inside(g) + "}"), ps[i].0) == ps[i].1 <==> Plain(ps[i].1)
  {
    var tail, key := Ending(g) + "}", ps[i].0;
    KeysAreOk(g.logged);
    FieldsTail(ps, Ending(g), "}");
    ObjectText(Fields(ps, Ending(g)), Fields(ps, tail));
    SkipQuoteless("{\n", Fields(ps, tail), Pattern(key));
    assert Ending(g)[0] == tail[0];
    FieldAt(ps, tail, i);
  }

  lemma ObjectText(fields: string, closed: string)
    requires fields + "}" == closed
    ensures "{" + (("\n" + fields) + "}") == "{\n" + closed
  {
  }

  /** What stands behind a key and its colon. */
  function Behind(txt: string, key: string): string {
    var at := From(txt, Pattern(key));
    if at.None? then "" else at.value[|Pattern(key)|..]
  }

  lemma Found(lead: string, key: string, rest: string)
    requires '\"' !in lead
    ensures From(lead + (Pattern(key) + rest), Pattern(key)) == Some(Pattern(key) + rest)
    ensures Behind(lead + (Pattern(key) + rest), key) == rest
  {
    SkipQuoteless(lead, Pattern(key) + rest, Pattern(key));
  }

  /** Past another key of the header. */
  lemma PastKey(lead: string, other: string, rest: string, key: string)
    requires '\"' !in lead && '\"' !in other && IsKey(key) && other != "" && other[0] != key[0]
    ensures From(lead + ("\"" + (other + ("\"" + (": " + rest)))), Pattern(key)) == From(rest, Pattern(key))
  {
    var behind := "\"" + (": " + rest);
    SkipQuoteless(lead, "\"" + (other + behind), Pattern(key));
    assert (key + "\":")[0] == key[0] && (other + behind)[0] == other[0];
    SkipQuoteKey(other + behind, key);
    SkipQuoteless(other, behind, Pattern(key));
    assert (": " + rest)[0] == ':';
    SkipQuoteKey(": " + rest, key);
    SkipQuoteless(": ", rest, Pattern(key));
  }

  /** The header holds version 1, the source under its key, and the time. */
  lemma HeaderReads(gs: seq<Goal>, source: string, stamp: string)
    ensures var txt := LogText(gs, source, stamp);
            && " 1,\n" <= Behind(txt, "version")
            && (StringField(txt, "source") == source <==> Plain(source))
            && " " + stamp + ",\n" <= Behind(txt, "timestamp")
  {
    var body := "\"goals\"" + (": [" + ("\n" + GoalsText(gs, "  ]\n}\n")));
    var middle := Middle(stamp, body);
    var value := Escape(source) + ("\"" + middle);
    var r4 := "source" + ("\"" + (": " + ("\"" + value)));
    var txt := LogText(gs, source, stamp);
    VersionFound(txt, r4);
    SourceFound(txt, value);
    ScanEscape(source, middle);
    TimeFound(txt, source, stamp, body);
  }

  /** The header up to the source's key, and from there. */
  lemma HeadText(q: string, sourceOn: string)
    requires sourceOn == "1,\n  " + ("\"" + ("source" + ("\"" + (": " + q))))
    ensures Head(q) == "{\n  " + ("\"" + ("version" + ("\"" + (": " + sourceOn))))
  {
    SplitColon("\"" + ("source" + ("\"" + (": " + q))));
  }

  lemma SplitColon(r: string)
    ensures ": 1,\n  " + r == ": " + ("1,\n  " + r)
  {
  }

  lemma VersionFound(txt: string, r4: string)
    requires txt == "{\n  " + ("\"" + ("version" + ("\"" + (": 1,\n  " + ("\"" + r4)))))
    ensures " 1,\n" <= Behind(txt, "version")
  {
    var rest := " 1,\n  " + ("\"" + r4);
    assert txt == "{\n  " + (Pattern("version") + rest);
    Found("{\n  ", "version", rest);
  }

  lemma SourceFound(txt: string, value: string)
    requires txt == Head("\"" + value)
    ensures StringField(txt, "source") == Scan(value)
  {
    var keyed := "\"" + ("source" + ("\"" + (": " + ("\"" + value))));
    KeyText("source", " " + ("\"" + value), "\"" + value);
    SourceKeyed(txt, value, "\"" + value, keyed);
  }

  lemma SourceKeyed(txt: string, value: string, q: string, keyed: string)
    requires txt == Head(q) && keyed == "\"" + ("source" + ("\"" + (": " + q)))
    requires keyed == Pattern("source") + (" " + ("\"" + value))
    ensures StringField(txt, "source") == Scan(value)
  {
    HeadText(q, "1,\n  " + keyed);
    PastKey("{\n  ", "version", "1,\n  " + keyed, "source");
    ValueFound(txt, "1,\n  ", "source", value);
  }

  lemma ValueFound(s: string, lead: string, key: string, x: string)
    requires '\"' !in lead
    requires From(s, Pattern(key)) == From(lead + (Pattern(key) + (" " + ("\"" + x))), Pattern(key))
    ensures StringField(s, key) == Scan(x)
  {
    Found(lead, key, " " + ("\"" + x));
    ValueAfter(Pattern(key), x);
  }

  lemma KeyText(key: string, rest: string, value: string)
    requires rest == " " + value
    ensures Pattern(key) + rest == "\"" + (key + ("\"" + (": " + value)))
  {
  }

  lemma TimeFound(txt: string, source: string, stamp: string, body: string)
    requires txt == Head("\"" + (Escape(source) + ("\"" + Middle(stamp, body))))
    ensures " " + stamp + ",\n" <= Behind(txt, "timestamp")
  {
    var value := "\"" + (Escape(source) + ("\"" + Middle(stamp, body)));
    var rest := " " + (stamp + (",\n  " + body));
    var lead := "1,\n  ";
    var sourceOn := lead + ("\"" + ("source" + ("\"" + (": " + value))));
    HeadText(value, sourceOn);
    PastKey("{\n  ", "version", sourceOn, "timestamp");
    PastKey(lead, "source", value, "timestamp");
    SkipValue(source, Middle(stamp, body), "timestamp");
    KeyText("timestamp", rest, stamp + (",\n  " + body));
    Found(",\n  ", "timestamp", rest);
    TimeText(stamp, body);
  }

  lemma TimeText(stamp: string, body: string)
    ensures " " + stamp + ",\n" <= " " + (stamp + (",\n  " + body))
  {
    assert " " + (stamp + (",\n  " + body)) == (" " + stamp + ",\n") + ("  " + body);
  }

  // ----- what stands behind a key -----

  predicate IsBlank(s: string) {
    forall i :: 0 <= i < |s| ==> s[i] == ' ' || s[i] == '\t'
  }

  lemma {:induction false} BlanksSkipped(blanks: string, rest: string)
    requires IsBlank(blanks) && (rest == "" || (rest[0] != ' ' && rest[0] != '\t'))
    ensures SkipBlanks(blanks + rest) == rest
    decreases |blanks|
  {
    if blanks == "" {
      assert "" + rest == rest;
    } else {
      assert (blanks + rest)[1..] == blanks[1..] + rest;
      BlanksSkipped(blanks[1..], rest);
    }
  }

  /** Behind the first such key and any blanks: a quote opens a string, and
      anything else is no string; `true` and `false` are the two booleans. */
  lemma ReadsBehindBlanks(lead: string, key: string, blanks: string, rest: string, otherwise: bool)
    requires '\"' !in lead && IsBlank(blanks) && (rest == "" || (rest[0] != ' ' && rest[0] != '\t'))
    ensures var obj := lead + (Pattern(key) + (blanks + rest));
            && StringField(obj, key) == (if rest != "" && rest[0] == '\"' then Scan(rest[1..]) else "")
            && BoolField(obj, key, otherwise)
               == (if "true" <= rest then true else if "false" <= rest then false else otherwise)
  {
    Found(lead, key, blanks + rest);
    BlanksSkipped(blanks, rest);
  }

  // ----- the errors -----

  /** The key of the array stands at `k`, and nowhere before. */
  ghost predicate FirstKey(txt: string, k: int) {
    0 <= k <= |txt| && "\"goals\"" <= txt[k..] && forall j :: 0 <= j < k ==> !("\"goals\"" <= txt[j..])
  }

  lemma {:induction false} FromIsFirst(s: string, pat: string) returns (k: int)
    ensures From(s, pat).Some? ==> 0 <= k <= |s| && From(s, pat).value == s[k..]
    ensures From(s, pat).Some? ==> forall j :: 0 <= j < k ==> !(pat <= s[j..])
    ensures From(s, pat).None? ==> forall j :: 0 <= j <= |s| ==> !(pat <= s[j..])
    decreases |s|
  {
    k := 0;
    assert s[0..] == s;
    if !(pat <= s) && s != "" {
      var i := FromIsFirst(s[1..], pat);
      k := i + 1;
      forall j | 1 <= j <= |s| ensures s[j..] == s[1..][j - 1..] {}
    }
  }

  /** A bracket that opens and one that closes it later, from `k` on. */
  ghost predicate Bracketed(txt: string, k: int) {
    exists i, j :: 0 <= k <= i < j < |txt| && txt[i] == '[' && txt[j] == ']'
  }

  /** A text without the key has no array; one whose first key is not followed by
      an opening and then a closing bracket is malformed; every other is read. */
  lemma ParseErrors(txt: string)
    ensures Parse(txt).NoArray? <==> forall k :: !FirstKey(txt, k)
    ensures Parse(txt).Malformed? <==> exists k :: FirstKey(txt, k) && !Bracketed(txt, k)
  {
    var k := FromIsFirst(txt, "\"goals\"");
    if From(txt, "\"goals\"").Some? {
      assert FirstKey(txt, k);
      forall k' | FirstKey(txt, k') ensures k' == k {}
      BracketsFrom(txt, k);
    }
  }

  lemma BracketsFrom(txt: string, k: int)
    requires 0 <= k <= |txt|
    ensures Bracketed(txt, k) <==> Cut(txt[k..], '[').Some? && Cut(Cut(txt[k..], '[').value.1, ']').Some?
  {
    var s := txt[k..];
    if Cut(s, '[').Some? {
      CutParts(s, '[');
      var (a, b) := Cut(s, '[').value;
      forall i | k <= i < k + |a| ensures txt[i] != '[' { assert txt[i] == s[i - k] == a[i - k]; }
      forall j | k + |a| < j < |txt| ensures txt[j] == b[j - k - |a| - 1] { assert txt[j] == s[j - k]; }
      if ']' in b {
        var j :| 0 <= j < |b| && b[j] == ']';
        assert txt[k + |a|] == s[|a|] == '[' && txt[k + |a| + 1 + j] == ']';
      }
    } else {
      forall i | k <= i < |txt| ensures txt[i] != '[' { assert txt[i] == s[i - k]; }
    }
  }

  // ----- the escapes -----

  /** The number a hexadecimal digit stands for. */
  function HexValue(d: char): int {
    if '0' <= d <= '9' then d as int - '0' as int
    else if 'a' <= d <= 'f' then d as int - 'a' as int + 10
    else -1
  }

  /** The code of the character that a JSON string holds where `e` is printed, as
      section 7 of RFC 8259 has it; -1 for what may not be printed. */
  function CodeOf(e: string): int {
    if |e| == 1 && e[0] >= ' ' && e[0] != '\"' && e[0] != '\\' then e[0] as int
    else if |e| == 2 && e[0] == '\\' then
      (match e[1]
       case '\"' => '\"' as int
       case '\\' => '\\' as int
       case 'n' => 10
       case 'r' => 13
       case 't' => 9
       case _ => -1)
    else if |e| == 6 && e[..2] == "\\u" then
      4096 * HexValue(e[2]) + 256 * HexValue(e[3]) + 16 * HexValue(e[4]) + HexValue(e[5])
    else -1
  }

  /** Every character is printed as JSON that stands for it. */
  lemma EscapeIsJson(c: char)
    ensures CodeOf(EscapeChar(c)) == c as int
  {
    if IsBare(c) && c != '\"' && c != '\\' {
      var hi, lo := c as int / 16, c as int % 16;
      HexIs(hi); HexIs(lo);
      assert EscapeChar(c) == ['\\', 'u', '0', '0', HexDigit(hi), HexDigit(lo)];
    }
  }

  lemma HexIs(n: nat)
    requires n < 16
    ensures HexValue(HexDigit(n)) == n
  {
  }

  /** The reader does not know `\\u`: of a control byte it makes five characters,
      the last two its code. */
  lemma BareReadsAsCode(c: char, rest: string)
    requires IsBare(c)
    ensures var out := Scan(EscapeChar(c) + rest);
            |out| == 5 + |Scan(rest)| && out[..3] == "u00" && 16 * HexValue(out[3]) + HexValue(out[4]) == c as int
  {
    HexIs(c as int / 16); HexIs(c as int % 16);
    ScanBare(c, rest);
  }
}
