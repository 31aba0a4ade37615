/** The training terminal's colour segmenter: a log line holding ANSI
    "select graphic rendition" sequences (`ESC [ <digits and ;> m`) is cut
    into coloured text parts. The escape sequences themselves are dropped;
    each part carries the colour class chosen by the last sequence before
    it.

    The source finds the sequences with the regular expression
    `\x1b\[([0-9;]+)m`; the model recognises the same language with a
    character scan: ESC, `[`, a non-empty maximal run of digits and `;`,
    then `m`. Because `m` is neither a digit nor `;`, backtracking inside
    the run can never produce another match, so the two agree. */
module Ansi {
  import opened Wrappers
  import opened Strings

  const Esc: char := '\U{001B}'

  /** The class of text before any sequence, and after code `0`. */
  const DefaultClass: string := "text-slate-300"

  /** One rendered span: its text and its colour class. */
  datatype Part = Part(text: string, className: string)

  /** A recognised escape sequence: its code (the text between `[` and
      `m`) and the index just after it. */
  datatype Escape = Escape(code: string, end: nat)

  predicate IsCodeChar(c: char) {
    '0' <= c <= '9' || c == ';'
  }

  /** End of the run of code characters that starts at `i`. */
  function CodeRunEnd(t: string, i: nat): (j: nat)
    requires i <= |t|
    ensures i <= j <= |t|
    ensures forall k | i <= k < j :: IsCodeChar(t[k])
    ensures j < |t| ==> !IsCodeChar(t[j])
    decreases |t| - i
  {
    if i < |t| && IsCodeChar(t[i]) then CodeRunEnd(t, i + 1) else i
  }

  /** The escape sequence that starts at position `p`, if one does. */
  function EscapeAt(t: string, p: nat): (r: Option<Escape>)
    requires p <= |t|
    ensures r.Some? ==> p + 4 <= r.value.end <= |t|
    ensures r.Some? ==>
      && t[p] == Esc && |r.value.code| >= 1
      && t[p..r.value.end] == [Esc, '['] + r.value.code + ['m']
  {
    if p + 1 < |t| && t[p] == Esc && t[p + 1] == '[' then
      var q := CodeRunEnd(t, p + 2);
      if q > p + 2 && q < |t| && t[q] == 'm' then
        var code := t[p + 2..q];
        assert t[p..q + 1] == [Esc, '['] + code + ['m'];
        Some(Escape(code, q + 1))
      else None
    else None
  }

  /** The class after a sequence with code `code` when the class was
      `current`: `0` resets, the six foreground colours (plain or bold)
      and bold `1` select a class, anything else keeps the current one. */
  function NextClass(code: string, current: string): string {
    if code == "0" then DefaultClass
    else if code == "31" || code == "1;31" then "text-red-400"
    else if code == "32" || code == "1;32" then "text-green-400"
    else if code == "33" || code == "1;33" then "text-yellow-400"
    else if code == "34" || code == "1;34" then "text-blue-400"
    else if code == "35" || code == "1;35" then "text-purple-400"
    else if code == "36" || code == "1;36" then "text-cyan-400"
    else if code == "1" then "text-white font-bold"
    else current
  }

  /** The scanning loop of `parseAnsi`: `pos` is where the search for the
      next sequence resumes, `last` is where unemitted text begins, `cls`
      is the current class and `acc` the parts emitted so far. */
  function Scan(t: string, pos: nat, last: nat, cls: string, acc: seq<Part>): (r: seq<Part>)
    requires last <= pos <= |t|
    requires forall i | 0 <= i < |acc| :: acc[i].text != ""
    ensures forall i | 0 <= i < |r| :: r[i].text != ""
    decreases |t| - pos
  {
    if pos == |t| then
      if last < |t| then acc + [Part(t[last..], cls)] else acc
    else
      match EscapeAt(t, pos)
      case Some(e) =>
        var acc' := if pos > last then acc + [Part(t[last..pos], cls)] else acc;
        Scan(t, e.end, e.end, NextClass(e.code, cls), acc')
      case None =>
        Scan(t, pos + 1, last, cls, acc)
  }

  /** `parseAnsi`. The result is never empty. When the text holds some
      character outside escape sequences, the parts are non-empty and,
      read character by character, give exactly the visible characters in
      order, each with the class the sequences before it select. Otherwise
      (empty text, or only sequences) the result is the whole text in the
      default class. */
  function ParseAnsi(t: string): (r: seq<Part>)
    ensures |r| >= 1
    ensures Painted(t, 0, DefaultClass) == [] ==> r == [Part(t, DefaultClass)]
    ensures Painted(t, 0, DefaultClass) != [] ==>
      && Flatten(r) == Painted(t, 0, DefaultClass)
      && forall i | 0 <= i < |r| :: r[i].text != ""
  {
    var parts := Scan(t, 0, 0, DefaultClass, []);
    ScanPaints(t, 0, 0, DefaultClass, []);
    assert t[0..0] == "";
    if |parts| > 0 then
      assert parts[0].text != "";
      FlattenAppend([parts[0]], parts[1..]);
      assert parts == [parts[0]] + parts[1..];
      parts
    else
      [Part(t, DefaultClass)]
  }

  // ---------------------------------------------------------------------
  // Reference semantics: the text character by character.

  /** Every character of `s` in class `cls`. */
  function Paint(s: string, cls: string): (r: seq<(char, string)>)
    ensures |r| == |s|
    ensures forall i | 0 <= i < |s| :: r[i] == (s[i], cls)
  {
    seq(|s|, i requires 0 <= i < |s| => (s[i], cls))
  }

  /** The visible characters of `t` from `pos` on, each with the class
      that the escape sequences before it select, starting from `cls`. */
  function Painted(t: string, pos: nat, cls: string): seq<(char, string)>
    requires pos <= |t|
    decreases |t| - pos
  {
    if pos == |t| then []
    else
      match EscapeAt(t, pos)
      case Some(e) => Painted(t, e.end, NextClass(e.code, cls))
      case None => [(t[pos], cls)] + Painted(t, pos + 1, cls)
  }

  /** Parts read character by character. */
  function Flatten(parts: seq<Part>): seq<(char, string)> {
    if |parts| == 0 then [] else Paint(parts[0].text, parts[0].className) + Flatten(parts[1..])
  }

  /** The text with every escape sequence removed. */
  function StripEscapes(t: string, pos: nat): string
    requires pos <= |t|
    decreases |t| - pos
  {
    if pos == |t| then ""
    else
      match EscapeAt(t, pos)
      case Some(e) => StripEscapes(t, e.end)
      case None => [t[pos]] + StripEscapes(t, pos + 1)
  }

  function Chars(cs: seq<(char, string)>): (r: string)
    ensures |r| == |cs|
    ensures forall i | 0 <= i < |cs| :: r[i] == cs[i].0
  {
    seq(|cs|, i requires 0 <= i < |cs| => cs[i].0)
  }

  function Texts(parts: seq<Part>): seq<string> {
    if |parts| == 0 then [] else [parts[0].text] + Texts(parts[1..])
  }

  lemma {:induction false} FlattenAppend(p: seq<Part>, q: seq<Part>)
    ensures Flatten(p + q) == Flatten(p) + Flatten(q)
    decreases |p|
  {
    if |p| == 0 {
      assert p + q == q;
    } else {
      FlattenAppend(p[1..], q);
      assert (p + q)[1..] == p[1..] + q;
    }
  }

  lemma PaintSplit(t: string, i: nat, j: nat, k: nat, cls: string)
    requires i <= j <= k <= |t|
    ensures Paint(t[i..k], cls) == Paint(t[i..j], cls) + Paint(t[j..k], cls)
  {
  }

  /** The scanning loop emits exactly the painted characters: what it has
      emitted, the pending text since `last`, then the painting of the
      rest. */
  lemma {:induction false} ScanPaints(t: string, pos: nat, last: nat, cls: string, acc: seq<Part>)
    requires last <= pos <= |t|
    requires forall i | 0 <= i < |acc| :: acc[i].text != ""
    ensures Flatten(Scan(t, pos, last, cls, acc)) == Flatten(acc) + Paint(t[last..pos], cls) + Painted(t, pos, cls)
    decreases |t| - pos, 1
  {
    if pos == |t| {
      ScanPaintsAtEnd(t, last, cls, acc);
    } else {
      match EscapeAt(t, pos)
      case Some(e) => ScanPaintsEscape(t, pos, last, cls, acc, e);
      case None => ScanPaintsPlain(t, pos, last, cls, acc);
    }
  }

  /** `ScanPaints` at the end of the text: the pending text is emitted. */
  lemma ScanPaintsAtEnd(t: string, last: nat, cls: string, acc: seq<Part>)
    requires last <= |t|
    requires forall i | 0 <= i < |acc| :: acc[i].text != ""
    ensures Flatten(Scan(t, |t|, last, cls, acc)) == Flatten(acc) + Paint(t[last..|t|], cls) + Painted(t, |t|, cls)
  {
    var p := Paint(t[last..|t|], cls);
    if last < |t| {
      FlattenAppend(acc, [Part(t[last..], cls)]);
      assert Flatten([Part(t[last..], cls)]) == p + Flatten([]);
      AppendEmpty(p);
    } else {
      assert p == [];
      AppendEmpty(Flatten(acc));
    }
    AppendEmpty(Flatten(acc) + p);
  }

  /** `ScanPaints` at an escape sequence: the pending text is emitted and
      the scan resumes after the sequence in the class it selects. */
  lemma {:induction false} ScanPaintsEscape(t: string, pos: nat, last: nat, cls: string, acc: seq<Part>, e: Escape)
    requires last <= pos < |t| && EscapeAt(t, pos) == Some(e)
    requires forall i | 0 <= i < |acc| :: acc[i].text != ""
    ensures Flatten(Scan(t, pos, last, cls, acc)) == Flatten(acc) + Paint(t[last..pos], cls) + Painted(t, pos, cls)
    decreases |t| - pos, 0
  {
    var cls' := NextClass(e.code, cls);
    var acc' := if pos > last then acc + [Part(t[last..pos], cls)] else acc;
    var p := Paint(t[last..pos], cls);
    assert Scan(t, pos, last, cls, acc) == Scan(t, e.end, e.end, cls', acc');
    assert Painted(t, pos, cls) == Painted(t, e.end, cls');
    ScanPaints(t, e.end, e.end, cls', acc');
    assert Paint(t[e.end..e.end], cls') == [];
    AppendEmpty(Flatten(acc'));
    if pos > last {
      FlattenAppend(acc, [Part(t[last..pos], cls)]);
      assert Flatten([Part(t[last..pos], cls)]) == p + Flatten([]);
      AppendEmpty(p);
    } else {
      assert p == [];
      AppendEmpty(Flatten(acc));
    }
  }

  /** `ScanPaints` at a visible character: it joins the pending text. */
  lemma {:induction false} ScanPaintsPlain(t: string, pos: nat, last: nat, cls: string, acc: seq<Part>)
    requires last <= pos < |t| && EscapeAt(t, pos).None?
    requires forall i | 0 <= i < |acc| :: acc[i].text != ""
    ensures Flatten(Scan(t, pos, last, cls, acc)) == Flatten(acc) + Paint(t[last..pos], cls) + Painted(t, pos, cls)
    decreases |t| - pos, 0
  {
    var c := [(t[pos], cls)];
    assert Scan(t, pos, last, cls, acc) == Scan(t, pos + 1, last, cls, acc);
    assert Painted(t, pos, cls) == c + Painted(t, pos + 1, cls);
    ScanPaints(t, pos + 1, last, cls, acc);
    PaintSplit(t, last, pos, pos + 1, cls);
    assert Paint(t[pos..pos + 1], cls) == c;
    Regroup(Flatten(acc), Paint(t[last..pos], cls), c, Painted(t, pos + 1, cls));
  }

  lemma AppendEmpty<T>(a: seq<T>)
    ensures a + [] == a
  {
  }

  lemma Regroup<T>(a: seq<T>, b: seq<T>, c: seq<T>, d: seq<T>)
    ensures a + (b + c) + d == a + b + (c + d)
  {
  }

  lemma {:induction false} ChartsOfPainted(t: string, pos: nat, cls: string)
    requires pos <= |t|
    ensures Chars(Painted(t, pos, cls)) == StripEscapes(t, pos)
    decreases |t| - pos
  {
    if pos < |t| {
      match EscapeAt(t, pos)
      case Some(e) =>
        ChartsOfPainted(t, e.end, NextClass(e.code, cls));
      case None =>
        ChartsOfPainted(t, pos + 1, cls);
    }
  }

  lemma {:induction false} TextsOfFlatten(parts: seq<Part>)
    ensures Concat(Texts(parts)) == Chars(Flatten(parts))
  {
    if |parts| > 0 {
      TextsOfFlatten(parts[1..]);
      assert Texts(parts) == [parts[0].text] + Texts(parts[1..]);
    }
  }

  /** Concatenating the parts' texts gives the line with every escape
      sequence removed, in the original order, whenever some visible
      character is left. */
  lemma ConcatenatedTextIsStripped(t: string)
    requires StripEscapes(t, 0) != ""
    ensures Concat(Texts(ParseAnsi(t))) == StripEscapes(t, 0)
  {
    ChartsOfPainted(t, 0, DefaultClass);
    TextsOfFlatten(ParseAnsi(t));
  }

  /** A coloured word followed by a reset: the word is red and the text
      after the reset is back in the default class; the sequences are
      gone. */
  lemma RedThenReset()
    ensures ParseAnsi([Esc] + "[1;31mfail" + [Esc] + "[0m ok")
         == [Part("fail", "text-red-400"), Part(" ok", DefaultClass)]
  {
    var t := [Esc] + "[1;31mfail" + [Esc] + "[0m ok";
    assert t[1] == '[' && t[2] == '1' && t[3] == ';' && t[4] == '3' && t[5] == '1' && t[6] == 'm';
    assert CodeRunEnd(t, 6) == 6;
    assert CodeRunEnd(t, 2) == 6;
    assert t[2..6] == "1;31";
    assert EscapeAt(t, 0) == Some(Escape("1;31", 7));
    assert t[11] == Esc && t[12] == '[' && t[13] == '0' && t[14] == 'm';
    assert CodeRunEnd(t, 14) == 14;
    assert CodeRunEnd(t, 13) == 14;
    assert t[13..14] == "0";
    assert EscapeAt(t, 11) == Some(Escape("0", 15));
    assert forall p | 7 <= p < 11 :: EscapeAt(t, p).None?;
    assert forall p | 15 <= p < 18 :: EscapeAt(t, p).None?;
    var red := "text-red-400";
    assert t[7..11] == "fail" && t[15..] == " ok";
    var done := [Part("fail", red), Part(" ok", DefaultClass)];
    assert Scan(t, 18, 15, DefaultClass, [Part("fail", red)]) == done;
    assert Scan(t, 17, 15, DefaultClass, [Part("fail", red)]) == done;
    assert Scan(t, 16, 15, DefaultClass, [Part("fail", red)]) == done;
    assert Scan(t, 15, 15, DefaultClass, [Part("fail", red)]) == [Part("fail", red), Part(" ok", DefaultClass)];
    assert NextClass("0", red) == DefaultClass;
    assert [] + [Part(t[7..11], red)] == [Part("fail", red)];
    assert Scan(t, 11, 7, red, []) == done;
    assert Scan(t, 10, 7, red, []) == done;
    assert Scan(t, 9, 7, red, []) == done;
    assert Scan(t, 8, 7, red, []) == done;
    assert Scan(t, 7, 7, red, []) == [Part("fail", red), Part(" ok", DefaultClass)];
    assert Scan(t, 0, 0, DefaultClass, []) == [Part("fail", red), Part(" ok", DefaultClass)];
  }

  /** An unknown code (underline, `4`) leaves the class as it was. */
  lemma UnknownCodeKeepsClass()
    ensures ParseAnsi("a" + [Esc] + "[4mb") == [Part("a", DefaultClass), Part("b", DefaultClass)]
  {
    var t := "a" + [Esc] + "[4mb";
    assert t[1] == Esc && t[2] == '[' && t[3] == '4' && t[4] == 'm';
    assert CodeRunEnd(t, 4) == 4;
    assert CodeRunEnd(t, 3) == 4;
    assert t[3..4] == "4";
    assert EscapeAt(t, 0).None?;
    assert EscapeAt(t, 1) == Some(Escape("4", 5));
    assert EscapeAt(t, 5).None?;
    assert t[0..1] == "a" && t[5..] == "b";
    assert Scan(t, 6, 5, DefaultClass, [Part("a", DefaultClass)]) == [Part("a", DefaultClass), Part("b", DefaultClass)];
    assert Scan(t, 5, 5, DefaultClass, [Part("a", DefaultClass)]) == [Part("a", DefaultClass), Part("b", DefaultClass)];
    assert NextClass("4", DefaultClass) == DefaultClass;
    assert [] + [Part(t[0..1], DefaultClass)] == [Part("a", DefaultClass)];
    assert Scan(t, 1, 0, DefaultClass, []) == [Part("a", DefaultClass), Part("b", DefaultClass)];
    assert Scan(t, 0, 0, DefaultClass, []) == [Part("a", DefaultClass), Part("b", DefaultClass)];
  }
}
