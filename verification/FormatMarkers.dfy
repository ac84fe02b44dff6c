/** The marker rewrite of `fmt.py`: lines carrying `@oss-disable` or `@oss-enable` are turned into
    their internal form and back. */
module FormatMarkers {
  import opened Options

  const DISABLE := "@oss-disable"
  const ENABLE := "@oss-enable"

  /** What `\s` and `rstrip` take for whitespace. */
  predicate Space(c: char) {
    || '\U{9}' <= c <= '\U{d}' || '\U{1c}' <= c <= ' ' || c == '\U{85}' || c == '\U{a0}' || c == '\U{1680}'
    || '\U{2000}' <= c <= '\U{200a}' || c == '\U{2028}' || c == '\U{2029}' || c == '\U{202f}' || c == '\U{205f}'
    || c == '\U{3000}'
  }

  predicate AllSpace(s: string) {
    forall i :: 0 <= i < |s| ==> Space(s[i])
  }

  /** A language's comment start, `//` or `#`. */
  predicate CommentOk(c: string) {
    c != [] && !Space(c[0]) && '\n' !in c && ':' !in c
  }

  predicate MarkerOk(m: string) {
    '\n' !in m && ':' !in m
  }

  predicate StartsWith(s: string, p: string) {
    |p| <= |s| && s[..|p|] == p
  }

  predicate EndsWith(s: string, p: string) {
    |p| <= |s| && s[|s| - |p|..] == p
  }

  /** Length of the leading whitespace. */
  function Leading(s: string): (k: nat)
    ensures k <= |s| && AllSpace(s[..k]) && (k < |s| ==> !Space(s[k]))
  {
    if s == [] || !Space(s[0]) then 0
    else
      var k := 1 + Leading(s[1..]);
      assert s[..k] == [s[0]] + s[1..][..k - 1];
      k
  }

  /** Length of what `rstrip` leaves. */
  function Stripped(s: string): (k: nat)
    ensures k <= |s| && AllSpace(s[k..]) && (k > 0 ==> !Space(s[k - 1]))
  {
    if s == [] || !Space(s[|s| - 1]) then |s|
    else
      var k := Stripped(s[..|s| - 1]);
      assert s[k..] == s[..|s| - 1][k..] + [s[|s| - 1]];
      k
  }

  // ----- The two shapes of a marked line -----

  function Suffix(c: string, m: string): string {
    " " + c + " " + m
  }

  /** `X <comment> <marker>` */
  function Live(c: string, m: string, prefix: string, body: string): string {
    prefix + body + Suffix(c, m)
  }

  function End(trailing: string): string {
    if trailing == [] then "" else "[end=" + trailing + "]"
  }

  /** `<comment> <marker>[end=<ws>]: X` */
  function Dead(c: string, m: string, prefix: string, trailing: string, content: string): string {
    prefix + (c + " " + m) + (End(trailing) + ": " + content)
  }

  ghost predicate IsLive(c: string, m: string, line: string, prefix: string, body: string) {
    line == Live(c, m, prefix, body) && AllSpace(prefix) && body != [] && !Space(body[0]) && '\n' !in body
  }

  ghost predicate IsDead(c: string, m: string, line: string, prefix: string, trailing: string, content: string) {
    && line == Dead(c, m, prefix, trailing, content) && AllSpace(prefix) && AllSpace(trailing)
    && content != [] && '\n' !in content
  }

  // ----- Matching -----

  datatype LiveParts = LiveParts(prefix: string, body: string)
  datatype DeadParts = DeadParts(prefix: string, trailing: string, content: string)

  function MatchLive(c: string, m: string, line: string): Option<LiveParts> {
    var suffix := Suffix(c, m);
    if !EndsWith(line, suffix) then None
    else
      var rest := line[..|line| - |suffix|];
      var k := Leading(rest);
      if k == |rest| || '\n' in rest[k..] then None else Some(LiveParts(rest[..k], rest[k..]))
  }

  /** The part after the marker: `[end=<ws>]: X` or `: X`. */
  function MatchRest(rest: string): Option<(string, string)> {
    if StartsWith(rest, ": ") then Some(("", rest[2..]))
    else if StartsWith(rest, "[end=") then
      var tail := rest[5..];
      var k := Leading(tail);
      if k == 0 || !StartsWith(tail[k..], "]: ") then None else Some((tail[..k], tail[k..][3..]))
    else None
  }

  function MatchDead(c: string, m: string, line: string): Option<DeadParts> {
    var k := Leading(line);
    var head := c + " " + m;
    if !StartsWith(line[k..], head) then None
    else
      var r := MatchRest(line[k..][|head|..]);
      if r.None? || r.value.1 == [] || '\n' in r.value.1 then None
      else Some(DeadParts(line[..k], r.value.0, r.value.1))
  }

  lemma {:induction false} LeadingIs(p: string, s: string)
    requires AllSpace(p) && (s == [] || !Space(s[0]))
    ensures Leading(p + s) == |p|
  {
    if p == [] {
      assert p + s == s;
    } else {
      assert (p + s)[0] == p[0] && (p + s)[1..] == p[1..] + s;
      LeadingIs(p[1..], s);
    }
  }

  /** The pattern matches exactly the lines of the live shape, in one way. */
  lemma LiveIff(c: string, m: string, line: string, prefix: string, body: string)
    ensures MatchLive(c, m, line) == Some(LiveParts(prefix, body)) <==> IsLive(c, m, line, prefix, body)
  {
    var suffix := Suffix(c, m);
    if IsLive(c, m, line, prefix, body) {
      assert line[|line| - |suffix|..] == suffix;
      assert line[..|line| - |suffix|] == prefix + body;
      LeadingIs(prefix, body);
      assert (prefix + body)[..|prefix|] == prefix && (prefix + body)[|prefix|..] == body;
    }
    if MatchLive(c, m, line) == Some(LiveParts(prefix, body)) {
      var rest := line[..|line| - |suffix|];
      assert rest == prefix + body;
      assert line == rest + suffix;
    }
  }

  lemma EndThen(trailing: string, content: string)
    requires trailing != []
    ensures End(trailing) + ": " + content == "[end=" + (trailing + ("]: " + content))
  {
    assert "]" + ": " == "]: ";
    assert ("[end=" + trailing + "]") + ": " + content == "[end=" + (trailing + ("]: " + content));
  }

  lemma RestMatches(rest: string, trailing: string, content: string)
    requires rest == End(trailing) + ": " + content && AllSpace(trailing)
    ensures MatchRest(rest) == Some((trailing, content))
  {
    if trailing == [] {
      assert rest == ": " + content;
    } else {
      hide End;
      EndThen(trailing, content);
      var back := "]: " + content;
      var tail := trailing + back;
      LeadingIs(trailing, back);
      assert rest[0] == '[' && rest[..5] == "[end=" && rest[5..] == tail;
      assert tail[|trailing|..] == back && tail[..|trailing|] == trailing;
    }
  }

  lemma MatchedRest(rest: string, trailing: string, content: string)
    requires MatchRest(rest) == Some((trailing, content))
    ensures rest == End(trailing) + ": " + content && AllSpace(trailing)
  {
    if StartsWith(rest, ": ") {
      assert rest == ": " + content;
    } else {
      var tail := rest[5..];
      assert rest == "[end=" + tail && tail == trailing + tail[|trailing|..];
      assert tail[|trailing|..] == "]: " + content;
      assert rest == "[end=" + trailing + "]" + ": " + content;
    }
  }

  lemma RestIff(rest: string, trailing: string, content: string)
    ensures MatchRest(rest) == Some((trailing, content)) <==> rest == End(trailing) + ": " + content && AllSpace(trailing)
  {
    hide MatchRest, End;
    if rest == End(trailing) + ": " + content && AllSpace(trailing) {
      RestMatches(rest, trailing, content);
    }
    if MatchRest(rest) == Some((trailing, content)) {
      MatchedRest(rest, trailing, content);
    }
  }

  lemma DeadIff(c: string, m: string, line: string, prefix: string, trailing: string, content: string)
    requires CommentOk(c)
    ensures MatchDead(c, m, line) == Some(DeadParts(prefix, trailing, content))
       <==> IsDead(c, m, line, prefix, trailing, content)
  {
    hide MatchRest, End;
    var head := c + " " + m;
    if IsDead(c, m, line, prefix, trailing, content) {
      var rest := End(trailing) + ": " + content;
      assert line == prefix + (head + rest);
      assert (head + rest)[0] == c[0];
      LeadingIs(prefix, head + rest);
      assert line[..|prefix|] == prefix && line[|prefix|..] == head + rest;
      assert (head + rest)[..|head|] == head && (head + rest)[|head|..] == rest;
      RestIff(rest, trailing, content);
    }
    if MatchDead(c, m, line) == Some(DeadParts(prefix, trailing, content)) {
      var rest := line[|prefix|..][|head|..];
      RestIff(rest, trailing, content);
      assert line == prefix + line[|prefix|..] && line[|prefix|..] == head + rest;
      assert line == prefix + head + rest;
    }
  }

  // ----- Rewriting a line -----

  function CommentLine(line: string, c: string, m: string): string {
    var p := MatchLive(c, m, line);
    if p.None? then line
    else
      var k := Stripped(p.value.body);
      Dead(c, m, p.value.prefix, p.value.body[k..], p.value.body[..k])
  }

  function UncommentLine(line: string, c: string, m: string): string {
    var p := MatchDead(c, m, line);
    if p.None? then line else Live(c, m, p.value.prefix, p.value.content + p.value.trailing)
  }

  /** What commenting a live line out gives: the trailing whitespace moves to the marker. */
  lemma Commented(line: string, c: string, m: string)
    requires CommentOk(c) && MatchLive(c, m, line).Some?
    ensures var parts := MatchLive(c, m, line).value;
            var k := Stripped(parts.body);
            && k > 0
            && IsDead(c, m, CommentLine(line, c, m), parts.prefix, parts.body[k..], parts.body[..k])
            && MatchDead(c, m, CommentLine(line, c, m)) == Some(DeadParts(parts.prefix, parts.body[k..], parts.body[..k]))
            && !Space(parts.body[0]) && !Space(parts.body[k - 1]) && '\n' !in parts.body
  {
    hide MatchLive, MatchDead, Dead;
    var parts := MatchLive(c, m, line).value;
    LiveIff(c, m, line, parts.prefix, parts.body);
    var k := Stripped(parts.body);
    DeadIff(c, m, CommentLine(line, c, m), parts.prefix, parts.body[k..], parts.body[..k]);
  }

  /** `uncomment_line` undoes `comment_line` on every line the latter rewrites. */
  lemma UncommentUndoesComment(line: string, c: string, m: string)
    requires CommentOk(c) && MatchLive(c, m, line).Some?
    ensures UncommentLine(CommentLine(line, c, m), c, m) == line
  {
    hide MatchLive, MatchDead, Dead;
    Commented(line, c, m);
    var parts := MatchLive(c, m, line).value;
    LiveIff(c, m, line, parts.prefix, parts.body);
    var k := Stripped(parts.body);
    assert parts.body[..k] + parts.body[k..] == parts.body;
  }

  /** A commented-out line is longer than the live one it becomes. */
  lemma UncommentShortens(line: string, c: string, m: string)
    requires CommentOk(c)
    ensures |UncommentLine(line, c, m)| <= |line|
    ensures MatchDead(c, m, line).Some? ==> |UncommentLine(line, c, m)| < |line|
  {
    hide MatchDead;
    if MatchDead(c, m, line).Some? {
      var parts := MatchDead(c, m, line).value;
      DeadIff(c, m, line, parts.prefix, parts.trailing, parts.content);
    }
  }

  lemma StrippedIs(x: string, t: string)
    requires x != [] && !Space(x[|x| - 1]) && AllSpace(t)
    ensures Stripped(x + t) == |x|
    decreases t
  {
    if t == [] {
      assert x + t == x;
    } else {
      assert (x + t)[..|x + t| - 1] == x + t[..|t| - 1];
      StrippedIs(x, t[..|t| - 1]);
    }
  }

  /** Commenting a line out again after uncommenting it gives it back exactly when its content
      neither starts nor ends with whitespace (and its trailing whitespace has no newline, as no
      line of a text does). */
  lemma CommentUndoesUncommentIff(line: string, c: string, m: string)
    requires CommentOk(c) && MatchDead(c, m, line).Some?
    ensures var x := MatchDead(c, m, line).value.content;
            && x != []
            && (CommentLine(UncommentLine(line, c, m), c, m) == line <==>
                !Space(x[0]) && !Space(x[|x| - 1]) && '\n' !in MatchDead(c, m, line).value.trailing)
  {
    hide MatchLive, MatchDead, Dead;
    var parts := MatchDead(c, m, line).value;
    var x, t := parts.content, parts.trailing;
    DeadIff(c, m, line, parts.prefix, t, x);
    UncommentShortens(line, c, m);
    var u := UncommentLine(line, c, m);
    if !Space(x[0]) && !Space(x[|x| - 1]) && '\n' !in t {
      LiveIff(c, m, u, parts.prefix, x + t);
      StrippedIs(x, t);
      assert (x + t)[..|x|] == x && (x + t)[|x|..] == t;
    }
    if MatchLive(c, m, u).Some? {
      Commented(u, c, m);
    }
  }

  // ----- Rewriting a text -----

  lemma CharFromEnd(line: string, s: string, j: nat)
    requires 0 < j <= |s|
    ensures EndsWith(line, s) ==> line[|line| - j] == s[|s| - j]
  {
    if EndsWith(line, s) {
      assert line[|line| - |s|..][|s| - j] == line[|line| - j];
    }
  }

  lemma CharFromStart(line: string, s: string, j: nat)
    requires j < |s|
    ensures StartsWith(line, s) ==> line[j] == s[j]
  {
    if StartsWith(line, s) {
      assert line[..|s|][j] == line[j];
    }
  }

  lemma EndsDiffer(c: string, line: string)
    requires EndsWith(line, Suffix(c, DISABLE))
    ensures !EndsWith(line, Suffix(c, ENABLE))
  {
    var d, e := Suffix(c, DISABLE), Suffix(c, ENABLE);
    assert d[|d| - 5] == DISABLE[7] && e[|e| - 5] == ENABLE[6];
    CharFromEnd(line, d, 5);
    CharFromEnd(line, e, 5);
  }

  lemma HeadsDiffer(c: string, line: string)
    requires CommentOk(c) && MatchDead(c, DISABLE, line).Some?
    ensures MatchDead(c, ENABLE, line).None?
  {
    hide MatchRest;
    var rest := line[Leading(line)..];
    var d, e := c + " " + DISABLE, c + " " + ENABLE;
    assert d[|c| + 6] == DISABLE[5] && e[|c| + 6] == ENABLE[5];
    CharFromStart(rest, d, |c| + 6);
    CharFromStart(rest, e, |c| + 6);
  }

  function InternalLine(line: string, c: string): string {
    CommentLine(UncommentLine(line, c, DISABLE), c, ENABLE)
  }

  function ExportedLine(line: string, c: string): string {
    UncommentLine(CommentLine(line, c, DISABLE), c, ENABLE)
  }

  /** When going to the internal form and back gives a line back: a disabled line has its content
      trimmed; an enabled line does not also end, before its marker, in a live disabling one; any
      other line is in neither internal shape. */
  predicate Exported(line: string, c: string) {
    var dead, live := MatchDead(c, DISABLE, line), MatchLive(c, ENABLE, line);
    if dead.Some? then
      var x := dead.value.content;
      x != [] && !Space(x[0]) && !Space(x[|x| - 1]) && '\n' !in dead.value.trailing
    else if live.Some? then
      !EndsWith(" " + live.value.body[..Stripped(live.value.body)], Suffix(c, DISABLE))
    else
      MatchLive(c, DISABLE, line).None? && MatchDead(c, ENABLE, line).None?
  }

  /** A disabled line. */
  lemma DisabledLine(line: string, c: string)
    requires CommentOk(c) && MatchDead(c, DISABLE, line).Some?
    ensures ExportedLine(InternalLine(line, c), c) == line <==> Exported(line, c)
  {
    hide MatchDead, Suffix;
    var parts := MatchDead(c, DISABLE, line).value;
    var a := UncommentLine(line, c, DISABLE);
    UncommentShortens(line, c, DISABLE);
    assert EndsWith(a, Suffix(c, DISABLE));
    EndsDiffer(c, a);
    assert InternalLine(line, c) == a;
    CommentUndoesUncommentIff(line, c, DISABLE);
    if MatchLive(c, DISABLE, a).Some? {
      Commented(a, c, DISABLE);
      HeadsDiffer(c, CommentLine(a, c, DISABLE));
    } else {
      UncommentShortens(a, c, ENABLE);
    }
  }

  /** The commented-out form of an enabled line ends in a live disabling marker exactly when the
      content does. */
  lemma EndsInContent(c: string, p: string, t: string, x: string)
    requires CommentOk(c) && AllSpace(p) && '\n' !in t && '\n' !in x && x != []
    ensures MatchLive(c, DISABLE, Dead(c, ENABLE, p, t, x)).Some? <==> EndsWith(" " + x, Suffix(c, DISABLE))
  {
    hide End, Suffix, MatchRest;
    var i, d := Dead(c, ENABLE, p, t, x), Suffix(c, DISABLE);
    DisableHasNoColon(c);
    var front, back := (c + " " + ENABLE) + (End(t) + ":"), " " + x;
    var all := front + back;
    assert i == p + all;
    EndsAcross(p + front, back, d);
    assert (p + front) + back == p + all;
    if EndsWith(i, d) {
      NoNewlines(c, t, x);
      assert all[0] == c[0];
      hide Dead, EndsWith;
      EndsLive(c, p, all, i, d);
    }
  }

  lemma EndsLive(c: string, p: string, all: string, i: string, d: string)
    requires CommentOk(c) && AllSpace(p) && i == p + all && d == Suffix(c, DISABLE) && EndsWith(i, d)
    requires |d| < |all| && all[0] == c[0] && '\n' !in all
    ensures MatchLive(c, DISABLE, i).Some?
  {
    hide Suffix;
    var body := all[..|all| - |d|];
    assert i[..|i| - |d|] == p + body;
    LeadingIs(p, body);
    assert (p + body)[|p|..] == body;
  }

  lemma NoNewlines(c: string, t: string, x: string)
    requires CommentOk(c) && '\n' !in t && '\n' !in x
    ensures '\n' !in (c + " " + ENABLE) + (End(t) + ":") + (" " + x)
  {
    assert '\n' !in ENABLE && '\n' !in End(t);
  }

  /** Without a colon in it, an ending does not reach back across one. */
  lemma EndsAcross(front: string, back: string, d: string)
    requires front != [] && front[|front| - 1] == ':' && ':' !in d
    ensures EndsWith(front + back, d) <==> EndsWith(back, d)
  {
    var s := front + back;
    if |d| <= |back| {
      assert s[|s| - |d|..] == back[|back| - |d|..];
    } else if |d| <= |s| {
      assert s[|s| - |d|..][|d| - |back| - 1] == ':';
    }
  }

  lemma DisableHasNoColon(c: string)
    requires CommentOk(c)
    ensures ':' !in Suffix(c, DISABLE)
  {
  }

  /** An enabled line. */
  lemma EnabledLine(line: string, c: string)
    requires CommentOk(c) && MatchDead(c, DISABLE, line).None? && MatchLive(c, ENABLE, line).Some?
    ensures ExportedLine(InternalLine(line, c), c) == line <==> Exported(line, c)
  {
    hide MatchDead, MatchLive, Suffix, EndsWith, Dead;
    var body := MatchLive(c, ENABLE, line).value.body;
    var k := Stripped(body);
    Commented(line, c, ENABLE);
    UncommentUndoesComment(line, c, ENABLE);
    var i := InternalLine(line, c);
    EndsInContent(c, MatchLive(c, ENABLE, line).value.prefix, body[k..], body[..k]);
    if MatchLive(c, DISABLE, i).Some? {
      Commented(i, c, DISABLE);
      HeadsDiffer(c, CommentLine(i, c, DISABLE));
    }
  }

  /** A line in neither exported shape. */
  lemma PlainLine(line: string, c: string)
    requires CommentOk(c) && MatchDead(c, DISABLE, line).None? && MatchLive(c, ENABLE, line).None?
    ensures ExportedLine(InternalLine(line, c), c) == line <==> Exported(line, c)
  {
    hide MatchDead, MatchLive;
    if MatchLive(c, DISABLE, line).Some? {
      Commented(line, c, DISABLE);
      HeadsDiffer(c, CommentLine(line, c, DISABLE));
    } else {
      UncommentShortens(line, c, ENABLE);
    }
  }

  /** To the internal form and back is the identity on a line exactly when it is `Exported`. */
  lemma LineRoundTripIff(line: string, c: string)
    requires CommentOk(c)
    ensures ExportedLine(InternalLine(line, c), c) == line <==> Exported(line, c)
  {
    hide Exported, ExportedLine, InternalLine;
    if MatchDead(c, DISABLE, line).Some? {
      DisabledLine(line, c);
    } else if MatchLive(c, ENABLE, line).Some? {
      EnabledLine(line, c);
    } else {
      PlainLine(line, c);
    }
  }

  // ----- Texts -----

  function Split(text: string): (lines: seq<string>)
    ensures lines != [] && forall i :: 0 <= i < |lines| ==> '\n' !in lines[i]
  {
    if text == [] then [""]
    else
      var rest := Split(text[1..]);
      if text[0] == '\n' then [""] + rest else [[text[0]] + rest[0]] + rest[1..]
  }

  function Join(lines: seq<string>): string
    requires lines != []
  {
    if |lines| == 1 then lines[0] else lines[0] + "\n" + Join(lines[1..])
  }

  lemma {:induction false} JoinSplit(text: string)
    ensures Join(Split(text)) == text
  {
    if text != [] {
      JoinSplit(text[1..]);
      var rest, lines := Split(text[1..]), Split(text);
      if text[0] == '\n' {
        assert lines[1..] == rest;
        assert Join(lines) == "" + "\n" + Join(rest);
      } else {
        assert lines[1..] == rest[1..];
        assert Join(lines) == [text[0]] + Join(rest);
      }
      assert text == [text[0]] + text[1..];
    }
  }

  lemma {:induction false} SplitJoin(lines: seq<string>)
    requires lines != [] && forall i :: 0 <= i < |lines| ==> '\n' !in lines[i]
    ensures Split(Join(lines)) == lines
    decreases |lines|, |lines[0]|
  {
    var text := Join(lines);
    if lines[0] != [] {
      var shorter := [lines[0][1..]] + lines[1..];
      assert shorter[1..] == lines[1..];
      assert text[1..] == Join(shorter) && text[0] == lines[0][0];
      SplitJoin(shorter);
      assert lines[0] == [lines[0][0]] + shorter[0];
      assert lines == [lines[0]] + shorter[1..];
    } else if |lines| > 1 {
      assert text == "\n" + Join(lines[1..]);
      assert text[1..] == Join(lines[1..]);
      SplitJoin(lines[1..]);
      assert lines == [""] + lines[1..];
    } else {
      assert lines == [""];
    }
  }

  function Each(f: string -> string, lines: seq<string>): (r: seq<string>)
    ensures |r| == |lines| && forall i :: 0 <= i < |lines| ==> r[i] == f(lines[i])
  {
    if lines == [] then [] else [f(lines[0])] + Each(f, lines[1..])
  }

  function ToInternal(text: string, comment: Option<string>): string {
    if comment.None? then text
    else
      var c := comment.value;
      var lines := Each((l: string) => UncommentLine(l, c, DISABLE), Split(text));
      Join(Each((l: string) => CommentLine(l, c, ENABLE), lines))
  }

  function ToExported(text: string, comment: Option<string>): string {
    if comment.None? then text
    else
      var c := comment.value;
      var lines := Each((l: string) => CommentLine(l, c, DISABLE), Split(text));
      Join(Each((l: string) => UncommentLine(l, c, ENABLE), lines))
  }

  lemma StaysOneLine(line: string, c: string, m: string)
    requires CommentOk(c) && MarkerOk(m) && '\n' !in line
    ensures '\n' !in CommentLine(line, c, m) && '\n' !in UncommentLine(line, c, m)
  {
    hide MatchLive, MatchDead, Live, Dead;
    if MatchLive(c, m, line).Some? {
      var parts := MatchLive(c, m, line).value;
      LiveIff(c, m, line, parts.prefix, parts.body);
      LivePrefix(c, m, parts.prefix, parts.body);
      var k := Stripped(parts.body);
      DeadOneLine(c, m, parts.prefix, parts.body[k..], parts.body[..k]);
    }
    if MatchDead(c, m, line).Some? {
      var parts := MatchDead(c, m, line).value;
      DeadIff(c, m, line, parts.prefix, parts.trailing, parts.content);
      DeadPieces(c, m, parts.prefix, parts.trailing, parts.content);
      LiveOneLine(c, m, parts.prefix, parts.content + parts.trailing);
    }
  }

  lemma LivePrefix(c: string, m: string, p: string, body: string)
    requires '\n' !in Live(c, m, p, body)
    ensures '\n' !in p
  {
    assert forall i :: 0 <= i < |p| ==> Live(c, m, p, body)[i] == p[i];
  }

  lemma DeadPieces(c: string, m: string, p: string, t: string, x: string)
    requires '\n' !in Dead(c, m, p, t, x)
    ensures '\n' !in p && '\n' !in t
  {
    var line, at := Dead(c, m, p, t, x), |p| + |c| + 1 + |m| + 5;
    assert forall i :: 0 <= i < |p| ==> line[i] == p[i];
    assert forall i :: 0 <= i < |t| ==> line[at + i] == t[i];
  }

  lemma DeadOneLine(c: string, m: string, p: string, t: string, x: string)
    requires CommentOk(c) && MarkerOk(m) && '\n' !in p && '\n' !in t && '\n' !in x
    ensures '\n' !in Dead(c, m, p, t, x)
  {
    assert '\n' !in End(t);
  }

  lemma LiveOneLine(c: string, m: string, p: string, body: string)
    requires CommentOk(c) && MarkerOk(m) && '\n' !in p && '\n' !in body
    ensures '\n' !in Live(c, m, p, body)
  {
  }

  lemma MarkersOk()
    ensures MarkerOk(DISABLE) && MarkerOk(ENABLE)
  {
  }

  lemma InternalLines(text: string, c: string)
    requires CommentOk(c)
    ensures Split(ToInternal(text, Some(c))) == Each((l: string) => InternalLine(l, c), Split(text))
  {
    hide CommentLine, UncommentLine, Split, Join, CommentOk;
    MarkersOk();
    hide MarkerOk;
    var lines := Split(text);
    var half := Each((l: string) => UncommentLine(l, c, DISABLE), lines);
    var whole := Each((l: string) => CommentLine(l, c, ENABLE), half);
    forall i | 0 <= i < |whole| ensures '\n' !in whole[i] && whole[i] == InternalLine(lines[i], c) {
      StaysOneLine(lines[i], c, DISABLE);
      StaysOneLine(half[i], c, ENABLE);
    }
    SplitJoin(whole);
    assert whole == Each((l: string) => InternalLine(l, c), lines);
  }

  lemma ExportedLines(text: string, c: string)
    requires CommentOk(c)
    ensures Split(ToExported(text, Some(c))) == Each((l: string) => ExportedLine(l, c), Split(text))
  {
    hide CommentLine, UncommentLine, Split, Join, CommentOk;
    MarkersOk();
    hide MarkerOk;
    var lines := Split(text);
    var half := Each((l: string) => CommentLine(l, c, DISABLE), lines);
    var whole := Each((l: string) => UncommentLine(l, c, ENABLE), half);
    forall i | 0 <= i < |whole| ensures '\n' !in whole[i] && whole[i] == ExportedLine(lines[i], c) {
      StaysOneLine(lines[i], c, DISABLE);
      StaysOneLine(half[i], c, ENABLE);
    }
    SplitJoin(whole);
    assert whole == Each((l: string) => ExportedLine(l, c), lines);
  }

  /** To the internal form and back is the identity on a text exactly when every line is
      `Exported`; a file without a comment rule is left alone. */
  lemma TextRoundTripIff(text: string, comment: Option<string>)
    requires comment.Some? ==> CommentOk(comment.value)
    ensures ToExported(ToInternal(text, comment), comment) == text
       <==> comment.None? || forall i :: 0 <= i < |Split(text)| ==> Exported(Split(text)[i], comment.value)
  {
    if comment.Some? {
      hide ToInternal, ToExported, InternalLine, ExportedLine, Exported, Split, CommentOk;
      var c := comment.value;
      var lines, inner := Split(text), ToInternal(text, comment);
      InternalLines(text, c);
      ExportedLines(inner, c);
      var back := Split(ToExported(inner, comment));
      forall i | 0 <= i < |lines| ensures back[i] == lines[i] <==> Exported(lines[i], c) {
        LineRoundTripIff(lines[i], c);
      }
      JoinSplit(text);
      JoinSplit(ToExported(inner, comment));
      assert back == lines <==> ToExported(inner, comment) == text;
      assert back == lines <==> forall i :: 0 <= i < |lines| ==> back[i] == lines[i];
    }
  }

  /** A line with both markers, disabling first, does not come back: `X # @oss-disable # @oss-enable`
      turns into `# @oss-disable: # @oss-enable: X`. */
  lemma BothMarkers(x: string, c: string)
    requires CommentOk(c) && x != [] && !Space(x[0]) && x[0] != c[0] && '\n' !in x
    ensures var line := x + Suffix(c, DISABLE) + Suffix(c, ENABLE);
            ExportedLine(InternalLine(line, c), c) != line
  {
    hide ExportedLine, InternalLine, MatchLive, MatchDead, Suffix;
    var d := Suffix(c, DISABLE);
    var body := x + d;
    var line := body + Suffix(c, ENABLE);
    SuffixEnds(c);
    assert body[0] == x[0] && line[0] == x[0] && body[|body| - 1] == d[|d| - 1];
    NotDead(c, DISABLE, line);
    assert "" + body + Suffix(c, ENABLE) == line;
    LiveIff(c, ENABLE, line, "", body);
    StrippedIs(body, "");
    assert body + "" == body && body[..|body|] == body;
    assert (" " + body)[|x| + 1..] == d;
    LineRoundTripIff(line, c);
  }

  lemma NotDead(c: string, m: string, line: string)
    requires CommentOk(c) && line != [] && !Space(line[0]) && line[0] != c[0]
    ensures MatchDead(c, m, line).None?
  {
    hide MatchRest;
    assert "" + line == line;
    LeadingIs("", line);
    CharFromStart(line[0..], c + " " + m, 0);
  }

  lemma SuffixEnds(c: string)
    requires CommentOk(c)
    ensures var d := Suffix(c, DISABLE); d != [] && '\n' !in d && !Space(d[|d| - 1])
  {
    MarkersOk();
    assert DISABLE[|DISABLE| - 1] == 'e';
  }
}