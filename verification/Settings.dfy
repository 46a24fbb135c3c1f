/**
 The settings writer: it sets one value of a hand-edited TOML file and keeps the rest.

 `Lookup` is the scan the writer itself uses to find a setting. The theorems say what the scan
 finds after a write, for the setting written and for every other one.
 */
module Settings {
  import opened Common

  /** A space, or one of the controls from tab to carriage return. */
  lemma Spaces(c: char)
    ensures IsSpace(c) <==> c as int in {9, 10, 11, 12, 13, 32}
  {
  }

  predicate IsSpace(c: char) {
    c == ' ' || '\t' <= c <= '\r'
  }

  // ------------------------------------------------------------------------ trimming

  function TrimStart(s: string): (r: string)
  {
    if s == "" || !IsSpace(s[0]) then s else TrimStart(s[1..])
  }

  function TrimEnd(s: string): (r: string)
  {
    if s == "" || !IsSpace(s[|s| - 1]) then s else TrimEnd(s[..|s| - 1])
  }

  /** What is taken off the start of a text. */
  lemma {:induction false} TrimStartAt(s: string) returns (n: nat)
    ensures n <= |s| && TrimStart(s) == s[n..] && (n < |s| ==> !IsSpace(s[n]))
    ensures forall i | 0 <= i < n :: IsSpace(s[i])
  {
    hide IsSpace;
    n := 0;
    if s != "" && IsSpace(s[0]) {
      n := TrimStartAt(s[1..]);
      assert s[1..][n..] == s[n + 1..];
      n := n + 1;
    }
  }

  lemma {:induction false} TrimEndAt(s: string) returns (n: nat)
    ensures n <= |s| && TrimEnd(s) == s[..n] && (n > 0 ==> !IsSpace(s[n - 1]))
    ensures forall i | n <= i < |s| :: IsSpace(s[i])
  {
    hide IsSpace;
    n := |s|;
    if s != "" && IsSpace(s[|s| - 1]) {
      n := TrimEndAt(s[..|s| - 1]);
      assert s[..|s| - 1][..n] == s[..n];
    } else {
      assert s[..|s|] == s;
    }
  }

  function Trimmed(s: string): string {
    TrimEnd(TrimStart(s))
  }

  method Trim(text: string) returns (r: string)
    ensures r == Trimmed(text)
  {
    hide Trimmed;
    var begin := 0;
    while begin < |text| && IsSpace(text[begin])
      invariant begin <= |text| && forall i | 0 <= i < begin :: IsSpace(text[i])
    {
      begin := begin + 1;
    }
    var end := |text|;
    while end > begin && IsSpace(text[end - 1])
      invariant begin <= end <= |text| && forall i | end <= i < |text| :: IsSpace(text[i])
    {
      end := end - 1;
    }
    r := text[begin..end];
    TrimmedOf(text[..begin], r, text[end..]);
    assert text[..begin] + r + text[end..] == text;
  }

  /** Text without spaces at its ends. */
  predicate Tight(s: string) {
    s == "" || (!IsSpace(s[0]) && !IsSpace(s[|s| - 1]))
  }

  lemma TrimmedIsTight(s: string)
    ensures Tight(Trimmed(s))
  {
    var m := TrimStartAt(s);
    var n := TrimEndAt(s[m..]);
    hide TrimStart, TrimEnd, IsSpace;
    if n > 0 {
      assert s[m..][..n][0] == s[m] && s[m..][..n][n - 1] == s[m..][n - 1];
    }
  }

  lemma {:induction false} TrimStartIs(s: string, n: nat)
    requires n <= |s| && (forall i | 0 <= i < n :: IsSpace(s[i])) && (n < |s| ==> !IsSpace(s[n]))
    ensures TrimStart(s) == s[n..]
    decreases n
  {
    if n > 0 {
      TrimStartIs(s[1..], n - 1);
    }
  }

  lemma {:induction false} TrimEndIs(s: string, n: nat)
    requires n <= |s| && (forall i | n <= i < |s| :: IsSpace(s[i])) && (n > 0 ==> !IsSpace(s[n - 1]))
    ensures TrimEnd(s) == s[..n]
    decreases |s|
  {
    if n < |s| {
      TrimEndIs(s[..|s| - 1], n);
      assert s[..|s| - 1][..n] == s[..n];
    }
  }

  /** Spaces around a text are all that trimming takes off. */
  lemma TrimmedOf(before: string, s: string, after: string)
    requires Tight(s) && (forall c | c in before :: IsSpace(c)) && (forall c | c in after :: IsSpace(c))
    ensures Trimmed(before + s + after) == s
  {
    hide TrimStart, TrimEnd;
    var t := before + s + after;
    assert forall i | 0 <= i < |before| :: t[i] in before;
    if s == "" {
      assert forall i | |before| <= i < |t| :: t[i] in after;
      TrimStartIs(t, |t|);
      TrimEndIs("", 0);
    } else {
      TrimStartIs(t, |before|);
      var u := s + after;
      assert t[|before|..] == u;
      assert forall i | |s| <= i < |u| :: u[i] in after;
      TrimEndIs(u, |s|);
    }
  }

  // ------------------------------------------------------------------------ comments

  datatype Quotes = Quotes(single: bool, double: bool, escaped: bool)

  const OUTSIDE := Quotes(false, false, false)

  function After(q: Quotes, c: char): Quotes {
    if q.double && c == '\\' && !q.escaped then q.(escaped := true)
    else if c == '\'' && !q.double then Quotes(!q.single, q.double, false)
    else if c == '"' && !q.single && !q.escaped then Quotes(q.single, !q.double, false)
    else q.(escaped := false)
  }

  predicate StartsComment(q: Quotes, c: char) {
    c == '#' && !q.single && !q.double
  }

  /** A line up to the comment that starts outside quotes. */
  function Uncommented(line: string, q: Quotes): (r: string)
    ensures r <= line
  {
    if line == "" || StartsComment(q, line[0]) then ""
    else [line[0]] + Uncommented(line[1..], After(q, line[0]))
  }

  method RemoveComment(line: string) returns (r: string)
    ensures r == Uncommented(line, OUTSIDE)
  {
    hide Uncommented;
    var inSingle, inDouble, escaped := false, false, false;
    CommentStart(line);
    for i := 0 to |line|
      invariant Uncommented(line, OUTSIDE) == line[..i] + Uncommented(line[i..], Quotes(inSingle, inDouble, escaped))
    {
      var ch := line[i];
      CommentStep(line, i, Quotes(inSingle, inDouble, escaped));
      if inDouble && ch == '\\' && !escaped {
        escaped := true;
      } else {
        if ch == '\'' && !inDouble {
          inSingle := !inSingle;
        } else if ch == '"' && !inSingle && !escaped {
          inDouble := !inDouble;
        } else if ch == '#' && !inSingle && !inDouble {
          return line[..i];
        }
        escaped := false;
      }
    }
    CommentEnd(line, Quotes(inSingle, inDouble, escaped));
    r := line;
  }

  lemma CommentStart(line: string)
    ensures line[..0] + Uncommented(line[0..], OUTSIDE) == Uncommented(line, OUTSIDE)
  {
    hide Uncommented;
    assert line[0..] == line;
  }

  lemma CommentStep(line: string, i: nat, q: Quotes)
    requires i < |line|
    ensures line[..i] + Uncommented(line[i..], q) ==
            if StartsComment(q, line[i]) then line[..i]
              else line[..i + 1] + Uncommented(line[i + 1..], After(q, line[i]))
  {
    assert line[i..][1..] == line[i + 1..] && line[..i] + [line[i]] == line[..i + 1];
    if !StartsComment(q, line[i]) {
      Associative(line[..i], [line[i]], Uncommented(line[i + 1..], After(q, line[i])));
    }
  }

  lemma CommentEnd(line: string, q: Quotes)
    ensures line[..|line|] + Uncommented(line[|line|..], q) == line
  {
    assert line[|line|..] == "" && line[..|line|] == line;
  }

  /** The quotes after a text. */
  function AfterAll(q: Quotes, s: string): Quotes
    decreases |s|
  {
    if s == "" then q else AfterAll(After(q, s[0]), s[1..])
  }

  /** A comment is found in the first text it starts in. */
  lemma {:induction false} UncommentedAppend(a: string, b: string, q: Quotes)
    ensures Uncommented(a + b, q) ==
            if Uncommented(a, q) == a then a + Uncommented(b, AfterAll(q, a)) else Uncommented(a, q)
    decreases |a|
  {
    if a == "" {
      assert a + b == b;
    } else {
      assert (a + b)[1..] == a[1..] + b;
      UncommentedAppend(a[1..], b, After(q, a[0]));
      HeadAppend(a, Uncommented(b, AfterAll(q, a)));
      assert a == [a[0]] + a[1..];
    }
  }

  // ------------------------------------------------------------------ headers and keys

  /** What a line says, without its comment. */
  function Said(line: string): string {
    Trimmed(Uncommented(line, OUTSIDE))
  }

  function HeaderIn(said: string): Option<string> {
    if |said| >= 2 && said[0] == '[' && said[|said| - 1] == ']' then Some(Trimmed(said[1..|said| - 1])) else None
  }

  /** The section a line opens. */
  function HeaderOf(line: string): Option<string> {
    HeaderIn(Said(line))
  }

  /** The place of the first equals sign, or the length. */
  function Equals(s: string): (r: nat)
    ensures r <= |s| && (r < |s| ==> s[r] == '=') && '=' !in s[..r]
  {
    if s == "" || s[0] == '=' then 0 else 1 + Equals(s[1..])
  }

  function KeyIn(said: string): Option<string> {
    if Equals(said) == |said| then None else Some(Trimmed(said[..Equals(said)]))
  }

  /** The key a line sets. */
  function KeyOf(line: string): Option<string> {
    KeyIn(Said(line))
  }

  function SettingLine(key: string, value: string): string {
    key + " = " + value
  }

  function HeaderLine(section: string): string {
    "[" + section + "]"
  }

  /** The line the writer makes is read back as its key exactly when the key has no equals sign and
      no comment starts in it. */
  lemma KeyReadsBack(key: string, value: string)
    requires Tight(key)
    ensures KeyOf(SettingLine(key, value)) == Some(key) <==> '=' !in key && Uncommented(key, OUTSIDE) == key
  {
    var rest := " = " + value;
    assert SettingLine(key, value) == key + rest;
    UncommentedAppend(key, rest, OUTSIDE);
    if Uncommented(key, OUTSIDE) == key {
      var q := AfterAll(OUTSIDE, key);
      var more := Uncommented(rest, q);
      EqualsStay(value, q);
      KeySaid(key, more);
    } else {
      ShorterKey(Uncommented(key, OUTSIDE), key);
    }
  }

  /** No comment starts in the equals sign and the spaces around it. */
  lemma EqualsStay(value: string, q: Quotes)
    ensures |Uncommented(" = " + value, q)| >= 3 && Uncommented(" = " + value, q)[..3] == " = "
  {
    var q1, q2 := After(q, ' '), After(After(q, ' '), '=');
    var u := Uncommented(value, After(q2, ' '));
    assert Uncommented(" " + value, q2) == " " + u by {
      assert (" " + value)[1..] == value;
    }
    assert Uncommented("= " + value, q1) == "=" + (" " + u) by {
      assert ("= " + value)[1..] == " " + value;
    }
    assert Uncommented(" = " + value, q) == " " + ("=" + (" " + u)) by {
      assert (" = " + value)[1..] == "= " + value;
    }
  }

  /** A text that is shorter than a key does not set it. */
  lemma ShorterKey(text: string, key: string)
    requires |text| < |key|
    ensures KeyIn(Trimmed(text)) != Some(key)
  {
    hide Trimmed;
    ShorterText(text);
    ShorterText(Trimmed(text)[..Equals(Trimmed(text))]);
  }

  lemma KeySaid(key: string, more: string)
    requires Tight(key) && |more| >= 3 && more[..3] == " = "
    ensures KeyIn(Trimmed(key + more)) == Some(key) <==> '=' !in key
  {
    hide Trimmed, KeyIn;
    assert more[0] == more[..3][0] == ' ' && more[1] == more[..3][1] == '=';
    if key == "" {
      assert key + more == more;
      NoKeySaid(more);
    } else {
      LeadingKey(key, more);
      if '=' in key {
        EqualsInKey(key, Trimmed(key + more));
      } else {
        EqualsAfterKey(key, Trimmed(key + more));
      }
    }
  }

  lemma EqualsInKey(key: string, said: string)
    requires key + " =" <= said && '=' in key
    ensures KeyIn(said) != Some(key)
  {
    hide Trimmed, Equals;
    var i :| 0 <= i < |key| && key[i] == '=';
    assert said[i] == (key + " =")[i];
    EqualsBy(said, i);
    ShorterText(said[..Equals(said)]);
  }

  lemma EqualsAfterKey(key: string, said: string)
    requires key != "" && Tight(key) && key + " =" <= said && '=' !in key
    ensures KeyIn(said) == Some(key)
  {
    hide Trimmed, Equals;
    var n := |key| + 1;
    assert said[n] == (key + " =")[n] == '=';
    assert said[..n] == (key + " =")[..n] == key + " ";
    EqualsIs(said, n);
    TrimmedOf("", key, " ");
    assert "" + key + " " == key + " ";
  }

  lemma {:induction false} EqualsIs(s: string, n: nat)
    requires n < |s| && s[n] == '=' && '=' !in s[..n]
    ensures Equals(s) == n
    decreases n
  {
    if n > 0 {
      assert s[0] in s[..n];
      assert forall c | c in s[1..][..n - 1] :: c in s[..n];
      EqualsIs(s[1..], n - 1);
    }
  }

  /** The first equals sign is no later than any. */
  lemma {:induction false} EqualsBy(s: string, i: nat)
    requires i < |s| && s[i] == '='
    ensures Equals(s) <= i
    decreases |s|
  {
    if s[0] != '=' {
      EqualsBy(s[1..], i - 1);
    }
  }

  lemma EqualsFirst(more: string)
    requires |more| >= 2 && more[0] == ' ' && more[1] == '='
    ensures Trimmed(more) != "" && Trimmed(more)[0] == '='
  {
    TrimStartIs(more, 1);
    var n := TrimEndAt(more[1..]);
    hide TrimStart, TrimEnd;
    assert more[1..][0] == '=' && !IsSpace('=');
    assert n > 0;
  }

  lemma NoKeySaid(more: string)
    requires |more| >= 2 && more[0] == ' ' && more[1] == '='
    ensures KeyIn(Trimmed(more)) == Some("")
  {
    EqualsFirst(more);
    hide TrimStart;
    var said := Trimmed(more);
    assert Equals(said) == 0;
    assert said[..0] == "";
    assert Trimmed("") == "" by {
      TrimmedOf("", "", "");
      assert "" + "" + "" == "";
    }
  }

  lemma LeadingKey(key: string, more: string)
    requires key != "" && Tight(key) && |more| >= 2 && more[0] == ' ' && more[1] == '='
    ensures key + " =" <= Trimmed(key + more)
  {
    var t := key + more;
    assert t[0] == key[0] && t[|key| + 1] == '=';
    TrimStartIs(t, 0);
    assert t[0..] == t;
    var n := TrimEndAt(t);
    hide TrimStart, TrimEnd;
    assert !IsSpace('=');
    assert n >= |key| + 2;
    assert t[..n][..|key| + 2] == t[..|key| + 2] == key + " =";
  }

  lemma ShorterText(s: string)
    ensures |Trimmed(s)| <= |s|
  {
    var m := TrimStartAt(s);
    var n := TrimEndAt(s[m..]);
    hide TrimStart, TrimEnd;
  }

  /** A new section's header is read back exactly when no comment starts in it. */
  lemma HeaderReadsBack(section: string)
    requires Tight(section)
    ensures HeaderOf(HeaderLine(section)) == Some(section)
            <==> Uncommented(HeaderLine(section), OUTSIDE) == HeaderLine(section)
  {
    var line := HeaderLine(section);
    var u := Uncommented(line, OUTSIDE);
    hide Uncommented;
    if u == line {
      HeaderSays(section);
    } else {
      ShorterHeader(u, section);
    }
  }

  lemma TightStays(s: string)
    requires Tight(s)
    ensures Trimmed(s) == s
  {
    hide Trimmed;
    TrimmedOf("", s, "");
    assert "" + s + "" == s;
  }

  lemma HeaderSays(section: string)
    requires Tight(section)
    ensures HeaderIn(Trimmed(HeaderLine(section))) == Some(section)
  {
    hide Trimmed;
    var line := HeaderLine(section);
    assert line[0] == '[' && line[|line| - 1] == ']';
    assert line[1..|line| - 1] == section;
    TightStays(line);
    TightStays(section);
  }

  lemma ShorterHeader(text: string, section: string)
    requires |text| < |section| + 2
    ensures HeaderIn(Trimmed(text)) != Some(section)
  {
    hide Trimmed;
    ShorterText(text);
    var said := Trimmed(text);
    if |said| >= 2 {
      ShorterText(said[1..|said| - 1]);
    }
  }

  /** A line for a key that does not start with a bracket opens no section. */
  lemma KeyOpensNothing(key: string, value: string)
    requires Tight(key) && '=' !in key && Uncommented(key, OUTSIDE) == key
    requires key == "" || key[0] != '['
    ensures HeaderOf(SettingLine(key, value)).None?
  {
    hide Uncommented, Trimmed;
    var rest := " = " + value;
    assert SettingLine(key, value) == key + rest;
    UncommentedAppend(key, rest, OUTSIDE);
    var more := Uncommented(rest, AfterAll(OUTSIDE, key));
    EqualsStay(value, AfterAll(OUTSIDE, key));
    assert more[0] == more[..3][0] == ' ' && more[1] == more[..3][1] == '=';
    if key == "" {
      assert key + more == more;
      EqualsFirst(more);
    } else {
      LeadingKey(key, more);
      assert Trimmed(key + more)[0] == (key + " =")[0];
    }
  }

  // --------------------------------------------------------------------------- the scan

  /** What a scan looks for. */
  datatype Query = Opens | Names(section: string) | Sets(key: string)

  predicate Meets(line: string, q: Query) {
    match q
    case Opens => HeaderOf(line).Some?
    case Names(section) => HeaderOf(line) == Some(section)
    case Sets(key) => KeyOf(line) == Some(key)
  }

  /** The first place from `from` on, up to `end`, whose line meets a query; `end` for none. */
  function First(lines: seq<string>, q: Query, from: nat, end: nat): (r: nat)
    requires from <= end <= |lines|
    ensures from <= r <= end
    decreases end - from
  {
    if from == end || Meets(lines[from], q) then from else First(lines, q, from + 1, end)
  }

  lemma {:induction false} FirstMeets(lines: seq<string>, q: Query, from: nat, end: nat)
    requires from <= end <= |lines|
    ensures var r := First(lines, q, from, end);
            && (r < end ==> Meets(lines[r], q))
            && (forall j | from <= j < r :: !Meets(lines[j], q))
    decreases end - from
  {
    hide Meets;
    if from < end && !Meets(lines[from], q) {
      FirstMeets(lines, q, from + 1, end);
    }
  }

  function SectionOf(lines: seq<string>, section: string): nat {
    First(lines, Names(section), 0, |lines|)
  }

  function SectionEnd(lines: seq<string>, start: nat): nat
    requires start < |lines|
  {
    First(lines, Opens, start + 1, |lines|)
  }

  function KeyAt(lines: seq<string>, key: string, from: nat, end: nat): nat
    requires from <= end <= |lines|
  {
    First(lines, Sets(key), from, end)
  }

  /** The line that sets a key of a section: the first in the first section of that name. */
  function Lookup(lines: seq<string>, section: string, key: string): Option<string> {
    var start := SectionOf(lines, section);
    if start == |lines| then None
    else
      var end := SectionEnd(lines, start);
      var at := KeyAt(lines, key, start + 1, end);
      if at == end then None else Some(lines[at])
  }

  // -------------------------------------------------------------------------- the write

  /** After the last line of a section that is not blank. */
  function InsertAt(lines: seq<string>, start: nat, end: nat): (r: nat)
    requires start < end <= |lines|
    ensures start < r <= end
    decreases end
  {
    if end > start + 1 && Trimmed(lines[end - 1]) == "" then InsertAt(lines, start, end - 1) else end
  }

  /** What a new section adds at the end of the file. */
  function NewSection(lines: seq<string>, section: string, line: string): seq<string> {
    if lines != [] && lines[|lines| - 1] != "" then ["", HeaderLine(section), line] else [HeaderLine(section), line]
  }

  function Written(lines: seq<string>, section: string, key: string, value: string): seq<string> {
    var replacement := SettingLine(key, value);
    var start := SectionOf(lines, section);
    if start == |lines| then lines + NewSection(lines, section, replacement)
    else
      var end := SectionEnd(lines, start);
      var at := KeyAt(lines, key, start + 1, end);
      if at < end then lines[at := replacement]
      else
        var insertAt := InsertAt(lines, start, end);
        lines[..insertAt] + [replacement] + lines[insertAt..]
  }

  method WriteSetting(lines: seq<string>, section: string, key: string, value: string) returns (r: seq<string>)
    ensures r == Written(lines, Trimmed(section), Trimmed(key), value)
  {
    var normalizedSection := Trim(section);
    var normalizedKey := Trim(key);
    hide Trimmed, HeaderIn, KeyIn, Uncommented;
    r := lines;
    var sectionStart, sectionEnd := FindSection(lines, normalizedSection);
    var replacement := SettingLine(normalizedKey, value);
    if sectionStart == |lines| {
      if r != [] && r[|r| - 1] != "" {
        r := r + [""];
      }
      r := r + [HeaderLine(normalizedSection)];
      r := r + [replacement];
      return;
    }
    var at := FindKey(lines, normalizedKey, sectionStart + 1, sectionEnd);
    if at < sectionEnd {
      r := lines[at := replacement];
      return;
    }
    var insertAt := sectionEnd;
    while insertAt > sectionStart + 1
      invariant sectionStart < insertAt <= sectionEnd
      invariant InsertAt(lines, sectionStart, sectionEnd) == InsertAt(lines, sectionStart, insertAt)
    {
      var blank := Trim(lines[insertAt - 1]);
      if blank != "" {
        break;
      }
      insertAt := insertAt - 1;
    }
    r := lines[..insertAt] + [replacement] + lines[insertAt..];
  }

  /** The first section of a name, and where the next begins. */
  method FindSection(lines: seq<string>, section: string) returns (start: nat, end: nat)
    ensures start == SectionOf(lines, section)
    ensures end == if start < |lines| then SectionEnd(lines, start) else |lines|
  {
    hide Trimmed, HeaderIn, KeyIn, Uncommented;
    start, end := |lines|, |lines|;
    ghost var named := Names(section);
    for i := 0 to |lines|
      invariant end == |lines| && start <= |lines|
      invariant start == |lines| ==> First(lines, named, 0, |lines|) == First(lines, named, i, |lines|)
      invariant start < |lines| ==>
                  && start < i && start == First(lines, named, 0, |lines|)
                  && First(lines, Opens, start + 1, |lines|) == First(lines, Opens, i, |lines|)
    {
      var trimmed := SaidBy(lines[i]);
      var found := HeaderIn(trimmed);
      if found.Some? {
        if start != |lines| {
          end := i;
          break;
        }
        if found.value == section {
          start := i;
        }
      }
    }
  }

  /** The first line that sets a key, or the end. */
  method FindKey(lines: seq<string>, key: string, from: nat, end: nat) returns (at: nat)
    requires from <= end <= |lines|
    ensures at == KeyAt(lines, key, from, end)
  {
    hide Trimmed, HeaderIn, KeyIn, Uncommented;
    ghost var sets := Sets(key);
    for i := from to end
      invariant First(lines, sets, from, end) == First(lines, sets, i, end)
    {
      var uncommented := SaidBy(lines[i]);
      if KeyIn(uncommented) == Some(key) {
        return i;
      }
    }
    at := end;
  }

  method SaidBy(line: string) returns (said: string)
    ensures said == Said(line)
  {
    var uncommented := RemoveComment(line);
    said := Trim(uncommented);
  }

  // --------------------------------------------------------------- what a write changes

  /** A line the scan will take for the key, and not for a header. */
  predicate Sound(line: string, key: string) {
    Meets(line, Sets(key)) && !Meets(line, Opens)
  }

  /** A line that opens no section and sets no key but, perhaps, this one. */
  ghost predicate Harmless(line: string, key: string) {
    !Meets(line, Opens) && forall other: string | other != key :: !Meets(line, Sets(other))
  }

  lemma NamedOpens(line: string, section: string)
    ensures Meets(line, Names(section)) ==> Meets(line, Opens)
    ensures forall key: string, other: string | Meets(line, Sets(key)) && key != other :: !Meets(line, Sets(other))
    ensures forall other: string | Meets(line, Names(section)) && section != other :: !Meets(line, Names(other))
  {
  }

  lemma BlankMeetsNothing(q: Query)
    ensures !Meets("", q)
  {
    assert Said("") == "";
  }

  lemma FirstIs(lines: seq<string>, q: Query, from: nat, end: nat, r: nat)
    requires from <= r <= end <= |lines| && (r < end ==> Meets(lines[r], q))
    requires forall j | from <= j < r :: !Meets(lines[j], q)
    ensures First(lines, q, from, end) == r
  {
    hide Meets, First;
    FirstMeets(lines, q, from, end);
  }

  /** The first line a section's scan can take for the key is the one found, if it is sound. */
  lemma FoundAt(lines: seq<string>, section: string, key: string, start: nat, at: nat)
    requires start < at < |lines| && Meets(lines[start], Names(section))
    requires forall j | 0 <= j < start :: !Meets(lines[j], Names(section))
    requires forall j | start < j < at :: !Meets(lines[j], Opens) && !Meets(lines[j], Sets(key))
    ensures SectionOf(lines, section) == start
    ensures Sound(lines[at], key) ==>
              at < SectionEnd(lines, start) && KeyAt(lines, key, start + 1, SectionEnd(lines, start)) == at
    ensures Lookup(lines, section, key) == Some(lines[at]) <==> Sound(lines[at], key)
  {
    hide Meets, First;
    FirstIs(lines, Names(section), 0, |lines|, start);
    FirstMeets(lines, Opens, start + 1, |lines|);
    var end := SectionEnd(lines, start);
    assert end >= at;
    if Meets(lines[at], Opens) {
      FirstIs(lines, Opens, start + 1, |lines|, at);
      FirstIs(lines, Sets(key), start + 1, at, at);
    } else {
      assert end > at;
      FirstMeets(lines, Sets(key), start + 1, end);
      if Meets(lines[at], Sets(key)) {
        FirstIs(lines, Sets(key), start + 1, end, at);
      }
    }
  }

  /** The section's header, and the line for the key, in what a write leaves. */
  function Place(lines: seq<string>, section: string, key: string): (nat, nat) {
    var start := SectionOf(lines, section);
    if start == |lines| then
      var h := |lines| + if lines != [] && lines[|lines| - 1] != "" then 1 else 0;
      (h, h + 1)
    else
      var end := SectionEnd(lines, start);
      var at := KeyAt(lines, key, start + 1, end);
      (start, if at < end then at else InsertAt(lines, start, end))
  }

  /** There is a section to write to, or its header can be read as one. */
  ghost predicate HasPlace(lines: seq<string>, section: string) {
    SectionOf(lines, section) < |lines| || Meets(HeaderLine(section), Names(section))
  }

  ghost predicate Placed(after: seq<string>, section: string, key: string, start: nat, at: nat, line: string) {
    && start < at < |after| && Meets(after[start], Names(section)) && after[at] == line
    && (forall j | 0 <= j < start :: !Meets(after[j], Names(section)))
    && (forall j | start < j < at :: !Meets(after[j], Opens) && !Meets(after[j], Sets(key)))
  }

  lemma WrittenAt(lines: seq<string>, section: string, key: string, value: string)
    requires HasPlace(lines, section)
    ensures var (start, at) := Place(lines, section, key);
            Placed(Written(lines, section, key, value), section, key, start, at, SettingLine(key, value))
  {
    hide Meets, First;
    var start := SectionOf(lines, section);
    FirstMeets(lines, Names(section), 0, |lines|);
    if start == |lines| {
      NewSectionAt(lines, section, key, SettingLine(key, value));
    } else {
      var end := SectionEnd(lines, start);
      FirstMeets(lines, Opens, start + 1, |lines|);
      FirstMeets(lines, Sets(key), start + 1, end);
      var at := KeyAt(lines, key, start + 1, end);
      if at < end {
        ReplacedAt(lines, section, key, start, at, SettingLine(key, value));
      } else {
        InsertedAt(lines, section, key, start, InsertAt(lines, start, end), SettingLine(key, value));
      }
    }
  }

  lemma NewSectionAt(lines: seq<string>, section: string, key: string, line: string)
    requires forall j | 0 <= j < |lines| :: !Meets(lines[j], Names(section))
    requires Meets(HeaderLine(section), Names(section))
    ensures Placed(lines + [HeaderLine(section), line], section, key, |lines|, |lines| + 1, line)
    ensures Placed(lines + ["", HeaderLine(section), line], section, key, |lines| + 1, |lines| + 2, line)
  {
    hide Meets;
    BlankMeetsNothing(Names(section));
  }

  lemma ReplacedAt(lines: seq<string>, section: string, key: string, start: nat, at: nat, line: string)
    requires start < at < |lines| && Placed(lines, section, key, start, at, lines[at])
    ensures Placed(lines[at := line], section, key, start, at, line)
  {
    hide Meets;
  }

  lemma InsertedAt(lines: seq<string>, section: string, key: string, start: nat, at: nat, line: string)
    requires start < at <= |lines| && Meets(lines[start], Names(section))
    requires forall j | 0 <= j < start :: !Meets(lines[j], Names(section))
    requires forall j | start < j < at :: !Meets(lines[j], Opens) && !Meets(lines[j], Sets(key))
    ensures Placed(lines[..at] + [line] + lines[at..], section, key, start, at, line)
  {
    hide Meets;
    var after := lines[..at] + [line] + lines[at..];
    assert forall j | 0 <= j < at :: after[j] == lines[j];
  }

  lemma WrittenOver(lines: seq<string>, section: string, key: string, value: string, second: string)
    ensures var at := Place(lines, section, key).1;
            && at < |Written(lines, section, key, value)|
            && Written(lines, section, key, second)
               == Written(lines, section, key, value)[at := SettingLine(key, second)]
  {
    hide Meets, First;
  }

  /** The writer's own scan finds the new line, exactly when it can be read as one. */
  lemma WriteIsFound(lines: seq<string>, section: string, key: string, value: string)
    ensures Lookup(Written(lines, section, key, value), section, key) == Some(SettingLine(key, value)) <==>
            Sound(SettingLine(key, value), key) && HasPlace(lines, section)
  {
    hide Meets, First;
    if HasPlace(lines, section) {
      hide Written, Place;
      var (start, at) := Place(lines, section, key);
      WrittenAt(lines, section, key, value);
      FoundAt(Written(lines, section, key, value), section, key, start, at);
    } else {
      UnreadableHeader(lines, section, key, value);
    }
  }

  lemma UnreadableHeader(lines: seq<string>, section: string, key: string, value: string)
    requires !HasPlace(lines, section)
    ensures Lookup(Written(lines, section, key, value), section, key).None?
  {
    hide Meets, First;
    var after := Written(lines, section, key, value);
    FirstMeets(lines, Names(section), 0, |lines|);
    BlankMeetsNothing(Names(section));
    FirstMeets(after, Names(section), 0, |after|);
    assert SectionOf(after, section) >= |after| - 1;
  }

  lemma SecondReplaces(lines: seq<string>, section: string, key: string, value: string, second: string)
    requires Sound(SettingLine(key, value), key) && HasPlace(lines, section)
    ensures Written(Written(lines, section, key, value), section, key, second) == Written(lines, section, key, second)
  {
    hide Meets, First, Place;
    var (start, at) := Place(lines, section, key);
    WrittenAt(lines, section, key, value);
    WrittenOver(lines, section, key, value, second);
    var after := Written(lines, section, key, value);
    FoundAt(after, section, key, start, at);
    assert Written(after, section, key, second) == after[at := SettingLine(key, second)];
  }

  /** A second write to a key leaves what it would have left without the first, exactly when the writer's scan
      finds what the first wrote. */
  lemma WriteTwice(lines: seq<string>, section: string, key: string, value: string, second: string)
    ensures Written(Written(lines, section, key, value), section, key, second)
            == Written(lines, section, key, second) <==>
            Sound(SettingLine(key, value), key) && HasPlace(lines, section)
  {
    hide Meets, First, Written, Sound, HasPlace, Place, SettingLine;
    var after := Written(lines, section, key, value);
    WrittenOver(lines, section, key, value, second);
    if HasPlace(lines, section) {
      if Sound(SettingLine(key, value), key) {
        SecondReplaces(lines, section, key, value, second);
      } else {
        var (start, at) := Place(lines, section, key);
        WrittenAt(lines, section, key, value);
        UnsoundRepeats(after, section, key, value, second, start, at);
      }
    } else {
      UnreadableHeader(lines, section, key, value);
      WrittenLonger(after, section, key, second);
    }
  }

  /** So repeating a write changes nothing exactly then. */
  lemma RepeatedWrite(lines: seq<string>, section: string, key: string, value: string)
    ensures Written(Written(lines, section, key, value), section, key, value)
            == Written(lines, section, key, value) <==>
            Sound(SettingLine(key, value), key) && HasPlace(lines, section)
  {
    WriteTwice(lines, section, key, value, value);
    hide Written, Sound, HasPlace;
  }

  /** Where nothing sets the key, a write adds a line. */
  lemma WrittenLonger(lines: seq<string>, section: string, key: string, value: string)
    requires Lookup(lines, section, key).None?
    ensures |Written(lines, section, key, value)| > |lines|
  {
    hide Meets, First, SettingLine, HeaderLine;
  }

  /** A line the scan does not take for the key: the next write adds another, or overwrites one that is. */
  lemma UnsoundRepeats(after: seq<string>, section: string, key: string, value: string, second: string, start: nat,
                       at: nat)
    requires Placed(after, section, key, start, at, SettingLine(key, value)) && !Sound(SettingLine(key, value), key)
    ensures Written(after, section, key, second) != after[at := SettingLine(key, second)]
  {
    hide Meets, First;
    FoundAt(after, section, key, start, at);
    var end := SectionEnd(after, start);
    FirstMeets(after, Opens, start + 1, |after|);
    var k := KeyAt(after, key, start + 1, end);
    FirstMeets(after, Sets(key), start + 1, end);
    if k == end {
      WrittenLonger(after, section, key, second);
    } else {
      assert Meets(after[k], Sets(key)) && !Meets(after[k], Opens) && k != at;
      ReplacesOne(after, section, key, second);
      if second == value {
        assert after[k] != SettingLine(key, second);
      } else {
        OtherValue(key, value, second);
      }
    }
  }

  lemma ReplacesOne(lines: seq<string>, section: string, key: string, value: string)
    requires Lookup(lines, section, key).Some?
    ensures var k := KeyAt(lines, key, SectionOf(lines, section) + 1, SectionEnd(lines, SectionOf(lines, section)));
            k < |lines| && Written(lines, section, key, value) == lines[k := SettingLine(key, value)]
  {
    hide Meets, First, SettingLine;
  }

  lemma OtherValue(key: string, value: string, second: string)
    requires value != second
    ensures SettingLine(key, value) != SettingLine(key, second)
  {
    var n := |key| + 3;
    assert SettingLine(key, value)[n..] == value && SettingLine(key, second)[n..] == second;
  }

  /** What a caller can see beforehand: after a write the scan finds the new line exactly when the key, without
      the spaces around it, has no equals sign and no comment starts in it, the line does not read as a header,
      and the section is there or no comment starts in its header. */
  lemma SettingIsFound(lines: seq<string>, section: string, key: string, value: string)
    ensures var s, k := Trimmed(section), Trimmed(key);
            Lookup(Written(lines, s, k, value), s, k) == Some(SettingLine(k, value)) <==>
            && '=' !in k && Uncommented(k, OUTSIDE) == k && HeaderOf(SettingLine(k, value)).None?
            && (SectionOf(lines, s) < |lines| || Uncommented(HeaderLine(s), OUTSIDE) == HeaderLine(s))
  {
    hide Trimmed, Tight, Uncommented, KeyOf, HeaderOf, Written, Lookup, SettingLine, HeaderLine, First, Meets, Sound,
      HasPlace;
    var s, k := Trimmed(section), Trimmed(key);
    TrimmedIsTight(section);
    TrimmedIsTight(key);
    KeyReadsBack(k, value);
    HeaderReadsBack(s);
    WriteIsFound(lines, s, k, value);
    SoundIs(SettingLine(k, value), k);
    PlaceIs(lines, s);
  }

  lemma SoundIs(line: string, key: string)
    ensures Sound(line, key) <==> KeyOf(line) == Some(key) && HeaderOf(line).None?
  {
    hide KeyOf, HeaderOf;
  }

  lemma PlaceIs(lines: seq<string>, section: string)
    ensures HasPlace(lines, section) <==>
            SectionOf(lines, section) < |lines| || HeaderOf(HeaderLine(section)) == Some(section)
  {
    hide HeaderOf, HeaderLine, First;
  }

  // ---------------------------------------------------------- what a write leaves alone

  /** The lines a write makes: the line for the key, after a header and a blank line where it needs them. */
  ghost predicate IsEdit(edit: seq<string>, section: string, line: string) {
    edit == [line] || edit == [HeaderLine(section), line] || edit == ["", HeaderLine(section), line]
  }

  /** Every line but the one that set the key is kept, in order, with its comment. */
  lemma WriteEditsOne(lines: seq<string>, section: string, key: string, value: string)
    returns (i: nat, gone: nat, edit: seq<string>)
    ensures i + gone <= |lines| && gone <= 1 && IsEdit(edit, section, SettingLine(key, value))
    ensures Written(lines, section, key, value) == lines[..i] + edit + lines[i + gone..]
    ensures Lookup(lines, section, key) == if gone == 1 then Some(lines[i]) else None
    ensures SectionOf(lines, section) == |lines| ==>
              i == |lines| && edit == if lines != [] && lines[|lines| - 1] != ""
                                      then ["", "[" + section + "]", SettingLine(key, value)]
                                      else ["[" + section + "]", SettingLine(key, value)]
    ensures SectionOf(lines, section) < |lines| ==> edit == [SettingLine(key, value)]
    ensures SectionOf(lines, section) < |lines| && gone == 0 ==>
              AfterLast(lines, SectionOf(lines, section), SectionEnd(lines, SectionOf(lines, section)), i)
  {
    hide First, Meets, InsertAt, SettingLine, AfterLast;
    var replacement := SettingLine(key, value);
    var start := SectionOf(lines, section);
    if start == |lines| {
      i, gone, edit := |lines|, 0, NewSection(lines, section, replacement);
      Appending(lines, edit);
      return;
    }
    var end := SectionEnd(lines, start);
    var at := KeyAt(lines, key, start + 1, end);
    edit := [replacement];
    if at < end {
      i, gone := at, 1;
      Replacing(lines, at, replacement);
    } else {
      i, gone := InsertAt(lines, start, end), 0;
      InsertIs(lines, start, end);
    }
  }

  /** The place behind the last line of a section that is not blank: only blank lines follow. */
  ghost predicate AfterLast(lines: seq<string>, start: nat, end: nat, i: nat) {
    && start < i <= end <= |lines| && (i == start + 1 || Trimmed(lines[i - 1]) != "")
    && forall j | i <= j < end :: Trimmed(lines[j]) == ""
  }

  lemma {:induction false} InsertIs(lines: seq<string>, start: nat, end: nat)
    requires start < end <= |lines|
    ensures AfterLast(lines, start, end, InsertAt(lines, start, end))
    decreases end
  {
    hide Trimmed;
    if end > start + 1 && Trimmed(lines[end - 1]) == "" {
      InsertIs(lines, start, end - 1);
    }
  }

  /** What the new line is: the key, an equals sign with a space on either side, and the value. */
  lemma SettingText(key: string, value: string)
    requires '=' !in key
    ensures var line := SettingLine(key, value);
            && Equals(line) == |key| + 1 && line[..|key|] == key
            && line[|key|..|key| + 3] == " = " && line[|key| + 3..] == value
  {
    FirstEquals(key + " ", "= " + value);
    assert SettingLine(key, value) == key + " " + ("= " + value);
  }

  lemma {:induction false} FirstEquals(a: string, b: string)
    requires '=' !in a && b != "" && b[0] == '='
    ensures Equals(a + b) == |a|
    decreases |a|
  {
    if a == "" {
      assert a + b == b;
    } else {
      assert (a + b)[1..] == a[1..] + b;
      FirstEquals(a[1..], b);
    }
  }

  lemma Appending(lines: seq<string>, edit: seq<string>)
    ensures lines[..|lines|] + edit + lines[|lines|..] == lines + edit
  {
  }

  lemma Replacing(lines: seq<string>, at: nat, line: string)
    requires at < |lines|
    ensures lines[at := line] == lines[..at] + [line] + lines[at + 1..]
  {
  }

  ghost predicate Ordinary(lines: seq<string>, start: nat, end: nat) {
    forall j | start < j < end && j < |lines| :: !Meets(lines[j], Opens)
  }

  /** The lines of another section's scan are not those between a header and the next. */
  lemma Elsewhere(lines: seq<string>, section: string, other: string, start: nat, end: nat)
    requires start < end <= |lines| && Meets(lines[start], Names(section)) && Ordinary(lines, start, end)
    requires other != section && SectionOf(lines, other) < |lines|
    ensures var a := SectionOf(lines, other); a >= end || (a < start && SectionEnd(lines, a) <= start)
  {
    hide Meets, First;
    var a := SectionOf(lines, other);
    FirstMeets(lines, Names(other), 0, |lines|);
    FirstMeets(lines, Opens, a + 1, |lines|);
    NamedOpens(lines[a], other);
    NamedOpens(lines[start], section);
  }

  /** A scan that looks for neither of two lines does not see the one replace the other. */
  lemma {:induction false} FirstReplaced(lines: seq<string>, at: nat, line: string, q: Query, from: nat, end: nat)
    requires from <= end <= |lines| && at < |lines|
    requires from <= at < end ==> !Meets(lines[at], q) && !Meets(line, q)
    ensures First(lines[at := line], q, from, end) == First(lines, q, from, end)
    decreases end - from
  {
    hide Meets;
    if from < end && !Meets(lines[from], q) {
      FirstReplaced(lines, at, line, q, from + 1, end);
    }
  }

  lemma SameLookup(lines: seq<string>, at: nat, line: string, section: string, key: string)
    requires at < |lines| && !Meets(lines[at], Opens) && !Meets(line, Opens)
    requires var a := SectionOf(lines, section);
             a < |lines| && a < at < SectionEnd(lines, a) ==> !Meets(lines[at], Sets(key)) && !Meets(line, Sets(key))
    ensures Lookup(lines[at := line], section, key) == Lookup(lines, section, key)
  {
    hide Meets, First;
    NamedOpens(lines[at], section);
    NamedOpens(line, section);
    FirstReplaced(lines, at, line, Names(section), 0, |lines|);
    var a := SectionOf(lines, section);
    if a < |lines| {
      FirstReplaced(lines, at, line, Opens, a + 1, |lines|);
      var end := SectionEnd(lines, a);
      FirstReplaced(lines, at, line, Sets(key), a + 1, end);
      FirstMeets(lines, Sets(key), a + 1, end);
    }
  }

  lemma ReplacedKeeps(lines: seq<string>, section: string, key: string, start: nat, at: nat, line: string,
                      otherSection: string, otherKey: string)
    requires start < at < |lines| && Meets(lines[start], Names(section)) && Ordinary(lines, start, at + 1)
    requires Meets(lines[at], Sets(key)) && Harmless(line, key)
    requires otherSection != section || otherKey != key
    ensures Lookup(lines[at := line], otherSection, otherKey) == Lookup(lines, otherSection, otherKey)
  {
    hide Meets, First, Lookup;
    NamedOpens(lines[at], section);
    NamedOpens(line, section);
    if otherSection != section && SectionOf(lines, otherSection) < |lines| {
      Elsewhere(lines, section, otherSection, start, at + 1);
    }
    HarmlessOpens(line, key);
    if otherKey != key {
      NamedKey(line, key, otherKey);
    }
    hide Harmless;
    SameLookup(lines, at, line, otherSection, otherKey);
  }

  /** A scan that does not look for a new line finds what it found, moved along behind the new line. */
  lemma FirstInserted(lines: seq<string>, line: string, at: nat, q: Query, from: nat, end: nat)
    requires from <= end <= |lines| && at <= |lines| && !Meets(line, q)
    ensures var after := lines[..at] + [line] + lines[at..];
            var f, e := if from <= at then from else from + 1, if end < at then end else end + 1;
            && f <= e <= |after|
            && First(after, q, f, e) == var r := First(lines, q, from, end); if r < at then r else r + 1
  {
    hide Meets, First;
    var after := lines[..at] + [line] + lines[at..];
    assert forall j | 0 <= j < at :: after[j] == lines[j];
    assert forall j | at <= j < |lines| :: after[j + 1] == lines[j];
    FirstMeets(lines, q, from, end);
    var r := First(lines, q, from, end);
    var f, e := if from <= at then from else from + 1, if end < at then end else end + 1;
    var s := if r < at then r else r + 1;
    forall j | f <= j < s ensures !Meets(after[j], q) {
      if j > at {
        assert after[j] == lines[j - 1];
      }
    }
    FirstIs(after, q, f, e, s);
  }

  lemma InsertedKeeps(lines: seq<string>, section: string, key: string, start: nat, at: nat, line: string,
                      otherSection: string, otherKey: string)
    requires start < at <= |lines| && Meets(lines[start], Names(section)) && Ordinary(lines, start, at)
    requires Harmless(line, key)
    requires otherSection != section || otherKey != key
    ensures Lookup(lines[..at] + [line] + lines[at..], otherSection, otherKey) == Lookup(lines, otherSection, otherKey)
  {
    hide Meets, First;
    HarmlessOpens(line, key);
    if otherKey != key {
      NamedKey(line, key, otherKey);
    }
    hide Harmless;
    var after := lines[..at] + [line] + lines[at..];
    NamedOpens(line, otherSection);
    FirstInserted(lines, line, at, Names(otherSection), 0, |lines|);
    var a := SectionOf(lines, otherSection);
    if a < |lines| {
      var b := if a < at then a else a + 1;
      FirstInserted(lines, line, at, Opens, a + 1, |lines|);
      var end := SectionEnd(lines, a);
      FirstMeets(lines, Sets(otherKey), a + 1, end);
      if otherKey != key {
        FirstInserted(lines, line, at, Sets(otherKey), a + 1, end);
      } else {
        Elsewhere(lines, section, otherSection, start, at);
        if a < start {
          FirstBefore(lines, line, at, Sets(otherKey), a + 1, end);
        } else {
          FirstBehind(lines, line, at, Sets(otherKey), a + 1, end);
        }
      }
    }
  }

  lemma NamedKey(line: string, key: string, other: string)
    requires Harmless(line, key) && other != key
    ensures !Meets(line, Sets(other))
  {
  }

  lemma {:induction false} FirstBefore(lines: seq<string>, line: string, at: nat, q: Query, from: nat, end: nat)
    requires from <= end <= at <= |lines|
    ensures First(lines[..at] + [line] + lines[at..], q, from, end) == First(lines, q, from, end)
    decreases end - from
  {
    hide Meets;
    if from < end && !Meets(lines[from], q) {
      FirstBefore(lines, line, at, q, from + 1, end);
    }
  }

  lemma {:induction false} FirstBehind(lines: seq<string>, line: string, at: nat, q: Query, from: nat, end: nat)
    requires at <= from <= end <= |lines|
    ensures First(lines[..at] + [line] + lines[at..], q, from + 1, end + 1) == First(lines, q, from, end) + 1
    decreases end - from
  {
    hide Meets;
    if from < end {
      assert (lines[..at] + [line] + lines[at..])[from + 1] == lines[from];
      if !Meets(lines[from], q) {
        FirstBehind(lines, line, at, q, from + 1, end);
      }
    }
  }

  ghost predicate Appended(lines: seq<string>, section: string, header: string, key: string, line: string,
                           after: seq<string>, h: nat)
  {
    && |lines| <= h == |after| - 2 && after[..|lines|] == lines && after[h] == header && after[h + 1] == line
    && (forall j | |lines| <= j < h :: after[j] == "")
    && (forall j | 0 <= j < |lines| :: !Meets(lines[j], Names(section)))
    && Meets(header, Names(section)) && Harmless(line, key)
  }

  /** The sections that were there end where they did, or at the new header. */
  lemma AppendedKeepsOld(lines: seq<string>, section: string, header: string, key: string, line: string,
                         after: seq<string>, h: nat, otherSection: string, otherKey: string)
    requires Appended(lines, section, header, key, line, after, h) && SectionOf(lines, otherSection) < |lines|
    ensures Lookup(after, otherSection, otherKey) == Lookup(lines, otherSection, otherKey)
  {
    hide Meets, First, Harmless;
    assert forall j | 0 <= j < |lines| :: after[j] == after[..|lines|][j];
    BlankMeetsNothing(Opens);
    BlankMeetsNothing(Sets(otherKey));
    NamedOpens(header, section);
    var a := SectionOf(lines, otherSection);
    FirstMeets(lines, Names(otherSection), 0, |lines|);
    FirstIs(after, Names(otherSection), 0, |after|, a);
    var end := SectionEnd(lines, a);
    FirstMeets(lines, Opens, a + 1, |lines|);
    var later := if end < |lines| then end else h;
    FirstIs(after, Opens, a + 1, |after|, later);
    FirstMeets(lines, Sets(otherKey), a + 1, end);
    var at := KeyAt(lines, otherKey, a + 1, end);
    FirstIs(after, Sets(otherKey), a + 1, later, if at < end then at else later);
  }

  /** There is no other new section, and no other key in the new one. */
  lemma AppendedKeepsNew(lines: seq<string>, section: string, header: string, key: string, line: string,
                         after: seq<string>, h: nat, otherSection: string, otherKey: string)
    requires Appended(lines, section, header, key, line, after, h) && SectionOf(lines, otherSection) == |lines|
    requires otherSection != section || otherKey != key
    ensures Lookup(after, otherSection, otherKey) == Lookup(lines, otherSection, otherKey)
  {
    hide Meets, First, Harmless;
    HarmlessOpens(line, key);
    assert forall j | 0 <= j < |lines| :: after[j] == after[..|lines|][j];
    BlankMeetsNothing(Names(otherSection));
    NamedOpens(header, section);
    NamedOpens(line, otherSection);
    FirstMeets(lines, Names(otherSection), 0, |lines|);
    if otherSection != section {
      FirstIs(after, Names(otherSection), 0, |after|, |after|);
    } else {
      NamedKey(line, key, otherKey);
      FirstIs(after, Names(section), 0, |after|, h);
      FirstIs(after, Opens, h + 1, |after|, |after|);
      FirstIs(after, Sets(otherKey), h + 1, |after|, |after|);
    }
  }

  lemma HarmlessOpens(line: string, key: string)
    requires Harmless(line, key)
    ensures !Meets(line, Opens)
  {
  }

  lemma AppendedKeeps(lines: seq<string>, pad: seq<string>, section: string, key: string, line: string,
                      otherSection: string, otherKey: string)
    requires (pad == [] || pad == [""]) && forall j | 0 <= j < |lines| :: !Meets(lines[j], Names(section))
    requires Meets(HeaderLine(section), Names(section)) && Harmless(line, key)
    requires otherSection != section || otherKey != key
    ensures Lookup(lines + pad + [HeaderLine(section), line], otherSection, otherKey)
            == Lookup(lines, otherSection, otherKey)
  {
    hide Meets, Lookup, Harmless, HeaderLine, First;
    var after, h := lines + pad + [HeaderLine(section), line], |lines| + |pad|;
    assert after[h] == HeaderLine(section) && after[h + 1] == line;
    assert Appended(lines, section, HeaderLine(section), key, line, after, h);
    hide Appended;
    if SectionOf(lines, otherSection) < |lines| {
      AppendedKeepsOld(lines, section, HeaderLine(section), key, line, after, h, otherSection, otherKey);
    } else {
      AppendedKeepsNew(lines, section, HeaderLine(section), key, line, after, h, otherSection, otherKey);
    }
  }

  /** A section for the line can be made: its header reads back, or neither line that is added sets a key. */
  predicate NewSectionKeeps(section: string, key: string, value: string) {
    var header := HeaderLine(section);
    || Meets(header, Names(section))
    || (KeyOf(SettingLine(key, value)).None? && (Meets(header, Opens) || KeyOf(header).None?))
  }

  /** A write of a line that opens no section and sets no other key changes no other setting. */
  lemma WriteKeepsOthers(lines: seq<string>, section: string, key: string, value: string,
                         otherSection: string, otherKey: string)
    requires Harmless(SettingLine(key, value), key)
    requires SectionOf(lines, section) < |lines| || NewSectionKeeps(section, key, value)
    requires otherSection != section || otherKey != key
    ensures Lookup(Written(lines, section, key, value), otherSection, otherKey) == Lookup(lines, otherSection, otherKey)
  {
    hide Meets, First, Lookup, Harmless, SettingLine, HeaderLine;
    var line := SettingLine(key, value);
    var start := SectionOf(lines, section);
    FirstMeets(lines, Names(section), 0, |lines|);
    if start == |lines| {
      var pad := if lines != [] && lines[|lines| - 1] != "" then [""] else [];
      WrittenNew(lines, pad, section, key, value);
      if Meets(HeaderLine(section), Names(section)) {
        AppendedKeeps(lines, pad, section, key, line, otherSection, otherKey);
      } else {
        IdleIs(line, HeaderLine(section), key);
        IdleKeeps(lines, pad, HeaderLine(section), line, otherSection, otherKey);
      }
    } else {
      var end := SectionEnd(lines, start);
      var at := KeyAt(lines, key, start + 1, end);
      FirstMeets(lines, Opens, start + 1, |lines|);
      FirstMeets(lines, Sets(key), start + 1, end);
      if at < end {
        ReplacedKeeps(lines, section, key, start, at, line, otherSection, otherKey);
      } else {
        InsertedKeeps(lines, section, key, start, InsertAt(lines, start, end), line, otherSection, otherKey);
      }
    }
  }

  lemma WrittenNew(lines: seq<string>, pad: seq<string>, section: string, key: string, value: string)
    requires SectionOf(lines, section) == |lines|
    requires pad == if lines != [] && lines[|lines| - 1] != "" then [""] else []
    ensures Written(lines, section, key, value) == lines + pad + [HeaderLine(section), SettingLine(key, value)]
  {
    hide First, SettingLine, HeaderLine;
    Associative(lines, pad, [HeaderLine(section), SettingLine(key, value)]);
    assert [""] + [HeaderLine(section), SettingLine(key, value)] == ["", HeaderLine(section), SettingLine(key, value)];
    assert [] + [HeaderLine(section), SettingLine(key, value)] == [HeaderLine(section), SettingLine(key, value)];
  }

  /** A line that sets no key and opens no section, behind one that sets none or opens one. */
  ghost predicate Idle(header: string, line: string) {
    && (forall key: string :: !Meets(line, Sets(key))) && !Meets(line, Opens)
    && (Meets(header, Opens) || forall key: string :: !Meets(header, Sets(key)))
  }

  lemma IdleIs(line: string, header: string, key: string)
    requires Harmless(line, key) && KeyOf(line).None? && (Meets(header, Opens) || KeyOf(header).None?)
    ensures Idle(header, line)
  {
    hide KeyOf, HeaderOf;
  }

  /** Two lines, perhaps after a blank one, are added at the end. */
  ghost predicate Behind(lines: seq<string>, after: seq<string>, h: nat) {
    && |lines| <= h == |after| - 2 && (forall j | 0 <= j < |lines| :: after[j] == lines[j])
    && (forall j | |lines| <= j < h :: after[j] == "")
  }

  /** Such lines at the end change no setting. */
  lemma IdleKeeps(lines: seq<string>, pad: seq<string>, header: string, line: string, otherSection: string,
                  otherKey: string)
    requires (pad == [] || pad == [""]) && Idle(header, line)
    ensures Lookup(lines + pad + [header, line], otherSection, otherKey) == Lookup(lines, otherSection, otherKey)
  {
    hide Meets, First, Lookup;
    var after, h := lines + pad + [header, line], |lines| + |pad|;
    assert after[h] == header && after[h + 1] == line && after[..|lines|] == lines;
    assert forall j | 0 <= j < |lines| :: after[j] == after[..|lines|][j];
    assert Behind(lines, after, h);
    IdleSets(header, line, otherKey);
    hide Behind, Idle;
    if SectionOf(lines, otherSection) < |lines| {
      IdleKeepsOld(lines, after, h, otherSection, otherKey);
    } else {
      IdleKeepsNew(lines, after, h, otherSection, otherKey);
    }
  }

  lemma IdleKeepsOld(lines: seq<string>, after: seq<string>, h: nat, otherSection: string, otherKey: string)
    requires Behind(lines, after, h) && SectionOf(lines, otherSection) < |lines|
    requires !Meets(after[h + 1], Sets(otherKey)) && !Meets(after[h + 1], Opens)
    requires Meets(after[h], Opens) || !Meets(after[h], Sets(otherKey))
    ensures Lookup(after, otherSection, otherKey) == Lookup(lines, otherSection, otherKey)
  {
    hide Meets, First;
    BlankMeetsNothing(Opens);
    BlankMeetsNothing(Sets(otherKey));
    var a := SectionOf(lines, otherSection);
    FirstMeets(lines, Names(otherSection), 0, |lines|);
    FirstIs(after, Names(otherSection), 0, |after|, a);
    var end := SectionEnd(lines, a);
    FirstMeets(lines, Opens, a + 1, |lines|);
    var later := if end < |lines| then end else if Meets(after[h], Opens) then h else |after|;
    FirstIs(after, Opens, a + 1, |after|, later);
    FirstMeets(lines, Sets(otherKey), a + 1, end);
    var at := KeyAt(lines, otherKey, a + 1, end);
    FirstIs(after, Sets(otherKey), a + 1, later, if at < end then at else later);
  }

  lemma IdleKeepsNew(lines: seq<string>, after: seq<string>, h: nat, otherSection: string, otherKey: string)
    requires Behind(lines, after, h) && SectionOf(lines, otherSection) == |lines|
    requires !Meets(after[h + 1], Sets(otherKey)) && !Meets(after[h + 1], Opens)
    ensures Lookup(after, otherSection, otherKey) == Lookup(lines, otherSection, otherKey)
  {
    hide Meets, First;
    BlankMeetsNothing(Names(otherSection));
    NamedOpens(after[h + 1], otherSection);
    FirstMeets(lines, Names(otherSection), 0, |lines|);
    if Meets(after[h], Names(otherSection)) {
      FirstIs(after, Names(otherSection), 0, |after|, h);
      FirstIs(after, Opens, h + 1, |after|, |after|);
      FirstIs(after, Sets(otherKey), h + 1, |after|, |after|);
    } else {
      FirstIs(after, Names(otherSection), 0, |after|, |after|);
    }
  }

  lemma IdleSets(header: string, line: string, key: string)
    requires Idle(header, line)
    ensures !Meets(line, Sets(key)) && !Meets(line, Opens) && (Meets(header, Opens) || !Meets(header, Sets(key)))
  {
  }

  /** A write leaves a setting of a file as it was. */
  predicate Keeps(lines: seq<string>, section: string, key: string, value: string, otherSection: string,
                  otherKey: string) {
    Lookup(Written(lines, section, key, value), otherSection, otherKey) == Lookup(lines, otherSection, otherKey)
  }

  /** No write of these arguments changes another setting of any file. */
  ghost predicate KeepsAll(section: string, key: string, value: string) {
    forall lines: seq<string>, otherSection: string, otherKey: string | otherSection != section || otherKey != key ::
      Keeps(lines, section, key, value, otherSection, otherKey)
  }

  /** A harmless line changes no other setting of any file exactly when its section can be made. */
  lemma HarmlessKeepsAll(section: string, key: string, value: string)
    requires Harmless(SettingLine(key, value), key)
    ensures KeepsAll(section, key, value) <==> NewSectionKeeps(section, key, value)
  {
    hide Lookup, Harmless, NewSectionKeeps, Written;
    if NewSectionKeeps(section, key, value) {
      forall lines: seq<string>, otherSection: string, otherKey: string | otherSection != section || otherKey != key
        ensures Keeps(lines, section, key, value, otherSection, otherKey)
      {
        WriteKeepsOthers(lines, section, key, value, otherSection, otherKey);
      }
    } else {
      var lines, otherSection, otherKey := SetsElsewhere(section, key, value);
      assert !Keeps(lines, section, key, value, otherSection, otherKey);
    }
  }

  /** Otherwise it sets a key of another section: the one its header opens, or the last one there is. */
  lemma SetsElsewhere(section: string, key: string, value: string)
    returns (lines: seq<string>, otherSection: string, otherKey: string)
    requires Harmless(SettingLine(key, value), key) && !NewSectionKeeps(section, key, value)
    ensures otherSection != section
    ensures Lookup(lines, otherSection, otherKey).None?
    ensures Lookup(Written(lines, section, key, value), otherSection, otherKey).Some?
  {
    hide First, SettingLine, HeaderLine, HeaderOf, KeyOf, Lookup;
    var header, line := HeaderLine(section), SettingLine(key, value);
    HarmlessKey(line, key);
    if Meets(header, Opens) {
      lines, otherSection, otherKey := [], HeaderOf(header).value, key;
      OpenedElsewhere(section, key, value, otherSection);
    } else {
      otherSection := if section == "a" then "b" else "a";
      ReadableHeader(otherSection);
      otherKey := if KeyOf(header).Some? then KeyOf(header).value else key;
      lines := [HeaderLine(otherSection)];
      BehindElsewhere(section, key, value, otherSection, otherKey);
    }
  }

  lemma HarmlessKey(line: string, key: string)
    requires Harmless(line, key)
    ensures KeyOf(line).None? || Meets(line, Sets(key))
  {
    hide KeyOf, HeaderOf;
    if KeyOf(line).Some? && KeyOf(line) != Some(key) {
      NamedKey(line, key, KeyOf(line).value);
    }
  }

  lemma OpenedElsewhere(section: string, key: string, value: string, other: string)
    requires Harmless(SettingLine(key, value), key) && Meets(SettingLine(key, value), Sets(key))
    requires Meets(HeaderLine(section), Names(other)) && other != section
    ensures Lookup([], other, key).None? && Lookup(Written([], section, key, value), other, key).Some?
  {
    hide Meets, First, SettingLine, HeaderLine, Harmless;
    var header, line := HeaderLine(section), SettingLine(key, value);
    HarmlessOpens(line, key);
    WrittenNew([], [], section, key, value);
    var after := [header, line];
    assert [] + [] + [header, line] == after;
    FirstIs(after, Names(other), 0, 2, 0);
    FirstIs(after, Opens, 1, 2, 2);
    FirstIs(after, Sets(key), 1, 2, 1);
  }

  lemma BehindElsewhere(section: string, key: string, value: string, other: string, otherKey: string)
    requires Harmless(SettingLine(key, value), key) && !Meets(HeaderLine(section), Opens)
    requires Meets(HeaderLine(other), Names(other)) && other != section
    requires Meets(HeaderLine(section), Sets(otherKey)) || Meets(SettingLine(key, value), Sets(otherKey))
    ensures Lookup([HeaderLine(other)], other, otherKey).None?
    ensures Lookup(Written([HeaderLine(other)], section, key, value), other, otherKey).Some?
  {
    hide Meets, First, SettingLine, HeaderLine, Harmless;
    var first, header, line := HeaderLine(other), HeaderLine(section), SettingLine(key, value);
    HarmlessOpens(line, key);
    NamedOpens(first, other);
    FirstIs([first], Names(section), 0, 1, 1);
    FirstIs([first], Names(other), 0, 1, 0);
    FirstIs([first], Opens, 1, 1, 1);
    HeaderIsText(other);
    WrittenNew([first], [""], section, key, value);
    var after := [first, "", header, line];
    assert [first] + [""] + [header, line] == after;
    BlankMeetsNothing(Opens);
    BlankMeetsNothing(Sets(otherKey));
    FirstIs(after, Names(other), 0, 4, 0);
    FirstIs(after, Opens, 1, 4, 4);
    FirstIs(after, Sets(otherKey), 1, 4, if Meets(header, Sets(otherKey)) then 2 else 3);
  }

  lemma HeaderIsText(section: string)
    ensures HeaderLine(section) != ""
  {
  }

  lemma {:induction false} PlainStays(s: string, q: Quotes)
    requires '#' !in s
    ensures Uncommented(s, q) == s
    decreases |s|
  {
    if s != "" {
      PlainStays(s[1..], After(q, s[0]));
      assert s == [s[0]] + s[1..];
    }
  }

  lemma ReadableHeader(section: string)
    requires section in {"a", "b"}
    ensures Meets(HeaderLine(section), Names(section))
  {
    PlainStays(HeaderLine(section), OUTSIDE);
    hide Uncommented, Trimmed;
    HeaderReadsBack(section);
  }

  /** For a section whose header can be read and a key that a line can set: a write changes no other setting of any
      file exactly when its line does not read as a header. */
  lemma KeepsAllUnlessHeader(section: string, key: string, value: string)
    requires Tight(key) && '=' !in key && Uncommented(key, OUTSIDE) == key
    requires Meets(HeaderLine(section), Names(section))
    ensures KeepsAll(section, key, value) <==> HeaderOf(SettingLine(key, value)).None?
  {
    hide Uncommented, Trimmed, Tight, HeaderOf, KeyOf, SettingLine, HeaderLine, Lookup, Written;
    KeyReadsBack(key, value);
    if HeaderOf(SettingLine(key, value)).None? {
      HarmlessKeepsAll(section, key, value);
    } else {
      KeyReadsBack(key, "");
      NoValueOpensNothing(key);
      var otherKey := if key == "a" then "b" else "a";
      PlainStays(otherKey, OUTSIDE);
      OneLetter(otherKey);
      KeyReadsBack(otherKey, "");
      NoValueOpensNothing(otherKey);
      Truncates(section, key, value, otherKey);
      assert !Keeps([HeaderLine(section), SettingLine(key, ""), SettingLine(otherKey, "")], section, key, value,
             section, otherKey);
    }
  }

  lemma OneLetter(key: string)
    requires key in {"a", "b"}
    ensures Tight(key)
  {
  }

  lemma NoValueOpensNothing(key: string)
    requires Tight(key) && Uncommented(key, OUTSIDE) == key
    ensures HeaderOf(SettingLine(key, "")).None?
  {
    hide Uncommented, Trimmed;
    assert SettingLine(key, "") == key + " = ";
    UncommentedAppend(key, " = ", OUTSIDE);
    PlainStays(" = ", AfterAll(OUTSIDE, key));
    if key == "" {
      TrimmedOf(" ", "=", " ");
      assert " " + "=" + " " == key + " = ";
    } else {
      TrimmedOf("", key + " =", " ");
      assert "" + (key + " =") + " " == key + " = ";
    }
  }

  /** A line that reads as a header, where one that sets the key was, ends the section there. */
  lemma Truncates(section: string, key: string, value: string, otherKey: string)
    requires Meets(HeaderLine(section), Names(section)) && Meets(SettingLine(key, value), Opens) && key != otherKey
    requires Sound(SettingLine(key, ""), key) && Sound(SettingLine(otherKey, ""), otherKey)
    ensures var lines := [HeaderLine(section), SettingLine(key, ""), SettingLine(otherKey, "")];
            !Keeps(lines, section, key, value, section, otherKey)
  {
    hide Meets, First, HeaderLine, SettingLine;
    var header, line, m, n := HeaderLine(section), SettingLine(key, value), SettingLine(key, ""),
        SettingLine(otherKey, "");
    var lines := [header, m, n];
    NamedOpens(m, section);
    FirstIs(lines, Names(section), 0, 3, 0);
    FirstIs(lines, Opens, 1, 3, 3);
    FirstIs(lines, Sets(key), 1, 3, 1);
    FirstIs(lines, Sets(otherKey), 1, 3, 2);
    var after := [header, line, n];
    assert lines[1 := line] == after;
    FirstIs(after, Names(section), 0, 3, 0);
    FirstIs(after, Opens, 1, 3, 1);
    FirstIs(after, Sets(otherKey), 1, 1, 1);
  }

  // ----------------------------------------------------------------------- the file

  /** The lines of a file's text: a carriage return at the end of one is dropped. */
  function LinesOf(text: string, line: string): seq<string>
    decreases |text|
  {
    if text == "" then (if line == "" then [] else [WithoutReturn(line)])
    else if text[0] == '\n' then [WithoutReturn(line)] + LinesOf(text[1..], "")
    else LinesOf(text[1..], line + [text[0]])
  }

  function WithoutReturn(line: string): string {
    if line != "" && line[|line| - 1] == '\r' then line[..|line| - 1] else line
  }

  /** A file's text: every line, and the end of it. */
  function TextOf(lines: seq<string>): string {
    if lines == [] then "" else lines[0] + "\n" + TextOf(lines[1..])
  }

  /** A line a file can keep: nothing in it ends it, and nothing at its end is dropped. */
  predicate Keepable(line: string) {
    '\n' !in line && (line == "" || line[|line| - 1] != '\r')
  }

  lemma {:induction false} LineRead(read: string, line: string, rest: string)
    requires '\n' !in line
    ensures LinesOf(line + "\n" + rest, read) == [WithoutReturn(read + line)] + LinesOf(rest, "")
    decreases |line|
  {
    var text := line + "\n" + rest;
    if line == "" {
      assert text[1..] == rest && read + line == read;
    } else {
      assert text[1..] == line[1..] + "\n" + rest;
      LineRead(read + [line[0]], line[1..], rest);
      assert read + [line[0]] + line[1..] == read + line;
    }
  }

  /** A last line that nothing ends is a line too; a return at the end of a line is dropped. */
  lemma {:induction false} LastLine(line: string, read: string)
    requires '\n' !in line && read + line != ""
    ensures LinesOf(line, read) ==
            if (read + line)[|read + line| - 1] == '\r' then [(read + line)[..|read + line| - 1]] else [read + line]
    decreases |line|
  {
    if line != "" {
      assert read + [line[0]] + line[1..] == read + line;
      LastLine(line[1..], read + [line[0]]);
    } else {
      assert read + line == read;
    }
  }

  /** Reading a written file gives its lines. */
  lemma {:induction false} ReadsBack(lines: seq<string>)
    requires forall i | 0 <= i < |lines| :: Keepable(lines[i])
    ensures LinesOf(TextOf(lines), "") == lines
    decreases |lines|
  {
    if lines != [] {
      ReadsBack(lines[1..]);
      LineRead("", lines[0], TextOf(lines[1..]));
      assert "" + lines[0] == lines[0];
    }
  }
}
