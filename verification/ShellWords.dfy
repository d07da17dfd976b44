/** Splitting a `#!` line into words with quotes and escapes (`shellwords`). */
module ShellWords {
  import opened Basics

  /** `Overrun`: the line ends in a backslash that would escape what follows it, and the program reads past the
      end of the line. */
  datatype Parsed = Words(words: seq<string>) | Unterminated | Overrun

  // ----- The simple form: one character at a time -----

  datatype Mode = Plain | InSingle | InDouble | Gap | Escape(inDouble: bool)

  /** The word being read and the words before it. In a gap between words there is no word being read. */
  datatype Machine = Machine(mode: Mode, cur: string, res: seq<string>)

  const START := Machine(Plain, "", [])

  function InWord(m: Machine, c: char): Machine {
    if c == '\'' then m.(mode := InSingle)
    else if c == '"' then m.(mode := InDouble)
    else if c == '\\' then m.(mode := Escape(false))
    else m.(cur := m.cur + [c])
  }

  function Next(m: Machine, c: char): Machine {
    match m.mode
    case Plain => if IsSpace(c) then Machine(Gap, "", m.res + [m.cur]) else InWord(m, c)
    case Gap => if IsSpace(c) then m else InWord(m.(mode := Plain), c)
    case InSingle => if c == '\'' then m.(mode := Plain) else m.(cur := m.cur + [c])
    case InDouble =>
      if c == '"' then m.(mode := Plain) else if c == '\\' then m.(mode := Escape(true)) else m.(cur := m.cur + [c])
    case Escape(inDouble) => Machine(if inDouble then InDouble else Plain, m.cur + [c], m.res)
  }

  function Feed(m: Machine, s: string): Machine {
    if s == "" then m else Next(Feed(m, s[..|s| - 1]), s[|s| - 1])
  }

  function Finish(m: Machine): Parsed {
    match m.mode
    case Plain => Words(m.res + [m.cur])
    case Gap => Words(m.res)
    case InSingle => Unterminated
    case InDouble => Unterminated
    case Escape(_) => Overrun
  }

  function Parse(s: string): Parsed {
    Finish(Feed(START, s))
  }

  // ----- The program: slices between two positions -----

  datatype Quoting = NoQuote | SingleQuote | DoubleQuote

  function ModeOf(st: Quoting): Mode {
    match st
    case NoQuote => Plain
    case SingleQuote => InSingle
    case DoubleQuote => InDouble
  }

  method SkipSpace(s: string, it: nat, ghost m: Machine) returns (e: nat)
    requires it < |s| && IsSpace(s[it]) && m.mode.Plain? && Feed(START, s[..it]) == m
    ensures it < e <= |s| && (e < |s| ==> !IsSpace(s[e]))
    ensures Feed(START, s[..e]) == Machine(Gap, "", m.res + [m.cur])
  {
    assert s[..it + 1][..it] == s[..it];
    e := it + 1;
    while e < |s| && IsSpace(s[e])
      invariant it < e <= |s| && Feed(START, s[..e]) == Machine(Gap, "", m.res + [m.cur])
    {
      assert s[..e + 1][..e] == s[..e];
      e := e + 1;
    }
  }

  /** The machine that the program's variables stand for: the slice from begin to it is not appended yet. */
  function StandsFor(st: Quoting, cur: string, s: string, begin: nat, it: nat, res: seq<string>): Machine
    requires begin <= it <= |s|
  {
    Machine(ModeOf(st), cur + s[begin..it], res)
  }

  /** m reads the word `all` in the quoting st, or is about to begin a word. */
  predicate Reads(m: Machine, st: Quoting, all: string) {
    m.cur == all && (m.mode == ModeOf(st) || (m.mode.Gap? && st.NoQuote?))
  }

  function Toggle(st: Quoting, q: Quoting): Quoting {
    if st.NoQuote? then q else NoQuote
  }

  /** The machine after one more character that is not a separating space. */
  function Stepped(st: Quoting, all: string, c: char, res: seq<string>): Machine {
    if c == '\'' && st != DoubleQuote then Machine(ModeOf(Toggle(st, SingleQuote)), all, res)
    else if c == '"' && st != SingleQuote then Machine(ModeOf(Toggle(st, DoubleQuote)), all, res)
    else if c == '\\' && st != SingleQuote then Machine(Escape(st == DoubleQuote), all, res)
    else Machine(ModeOf(st), all + [c], res)
  }

  lemma StepReads(s: string, it: nat, m: Machine, st: Quoting, all: string)
    requires it < |s| && Feed(START, s[..it]) == m && Reads(m, st, all) && (st.NoQuote? ==> !IsSpace(s[it]))
    ensures Feed(START, s[..it + 1]) == Stepped(st, all, s[it], m.res)
  {
    FeedTo(s, it);
  }

  /** Steps over a backslash and the character after it. */
  method SkipEscape(s: string, st: Quoting, cur0: string, begin0: nat, it0: nat, ghost res: seq<string>)
    returns (cur: string, begin: nat, it: nat)
    requires begin0 <= it0 < |s| && st != SingleQuote
    requires Feed(START, s[..it0 + 1]) == Machine(Escape(st == DoubleQuote), cur0 + s[begin0..it0], res)
    ensures it0 < it && begin <= it
    ensures it <= |s| ==> Feed(START, s[..it]) == StandsFor(st, cur, s, begin, it, res)
    ensures it > |s| ==> Parse(s) == Overrun
  {
    cur := cur0 + s[begin0..it0];
    it := it0 + 1;
    begin := it;
    EscapeAhead(s, it, Machine(Escape(st == DoubleQuote), cur, res));
    if it < |s| { OneSlice(cur, s, it); }
    it := it + 1;
  }

  /** Handles one character that is not a separating space, and the one after it if that is escaped. */
  method Switch(s: string, st0: Quoting, cur0: string, begin0: nat, it0: nat, ghost m: Machine)
    returns (st: Quoting, cur: string, begin: nat, it: nat)
    requires begin0 <= it0 < |s| && Feed(START, s[..it0]) == m && Reads(m, st0, cur0 + s[begin0..it0])
    requires st0.NoQuote? ==> !IsSpace(s[it0])
    ensures it0 < it && begin <= it
    ensures it <= |s| ==> Feed(START, s[..it]) == StandsFor(st, cur, s, begin, it, m.res)
    ensures it > |s| ==> Parse(s) == Overrun
  {
    st, cur, begin, it := st0, cur0, begin0, it0;
    ghost var all := cur0 + s[begin0..it0];
    StepReads(s, it0, m, st0, all);
    SliceGrows(cur, s, begin, it);
    if s[it] == '\'' {
      if st != DoubleQuote {
        cur := cur + s[begin..it];
        begin := it + 1;
        st := Toggle(st, SingleQuote);
        NoSlice(cur, s, begin);
      }
    } else if s[it] == '"' {
      if st != SingleQuote {
        cur := cur + s[begin..it];
        begin := it + 1;
        st := Toggle(st, DoubleQuote);
        NoSlice(cur, s, begin);
      }
    } else if s[it] == '\\' {
      if st != SingleQuote {
        cur, begin, it := SkipEscape(s, st, cur, begin, it, m.res);
        return;
      }
    }
    it := it + 1;
  }

  lemma NoSlice(cur: string, s: string, i: nat)
    requires i <= |s|
    ensures cur + s[i..i] == cur
  {
  }

  lemma OneSlice(cur: string, s: string, i: nat)
    requires i < |s|
    ensures cur + s[i..i + 1] == cur + [s[i]]
  {
    assert s[i..i + 1] == [s[i]];
  }

  lemma SliceGrows(cur: string, s: string, begin: nat, it: nat)
    requires begin <= it < |s|
    ensures cur + s[begin..it + 1] == cur + s[begin..it] + [s[it]]
  {
  }

  lemma EscapeAhead(s: string, it: nat, m: Machine)
    requires it <= |s| && Feed(START, s[..it]) == m && m.mode.Escape?
    ensures it == |s| ==> Parse(s) == Overrun
    ensures it < |s| ==>
      Feed(START, s[..it + 1]) == Machine(if m.mode.inDouble then InDouble else Plain, m.cur + [s[it]], m.res)
  {
    if it == |s| { assert s[..it] == s; } else { FeedTo(s, it); }
  }

  lemma FeedTo(s: string, it: nat)
    requires it < |s|
    ensures Feed(START, s[..it + 1]) == Next(Feed(START, s[..it]), s[it])
  {
    assert s[..it + 1][..it] == s[..it];
  }

  method ShellWords(s: string) returns (r: Parsed)
    ensures r == Parse(s)
  {
    var begin, it, st := 0, 0, NoQuote;
    var cur: string, res: seq<string> := "", [];
    while it != |s|
      invariant 0 <= begin <= it <= |s|
      invariant Feed(START, s[..it]) == StandsFor(st, cur, s, begin, it, res)
      decreases |s| - it
    {
      ghost var m := Feed(START, s[..it]);
      if st == NoQuote && IsSpace(s[it]) {
        cur := cur + s[begin..it];
        res := res + [cur];
        it := SkipSpace(s, it, m);
        if it == |s| {
          assert s[..it] == s;
          return Words(res);
        }
        m := Feed(START, s[..it]);
        begin := it;
        cur := "";
      }
      st, cur, begin, it := Switch(s, st, cur, begin, it, m);
      if it > |s| { return Overrun; }
    }
    assert s[..it] == s;
    if st != NoQuote { return Unterminated; }
    cur := cur + s[begin..it];
    res := res + [cur];
    return Words(res);
  }

  // ----- Quoting words so that they come back -----

  /** Ways to write a word: between single quotes, between double quotes, or with every character escaped. */
  datatype Style = Single | Double | Escaped

  /** A word, how it is written, and the white space in front of it, which counts for all but the first word. */
  datatype Item = Item(gap: string, style: Style, word: string)

  /** Inside single quotes a quote is written by closing them, an escaped quote, and opening them again. */
  function RenderChar(style: Style, c: char): string {
    match style
    case Single => if c == '\'' then "'\\''" else [c]
    case Double => if c == '"' || c == '\\' then ['\\', c] else [c]
    case Escaped => ['\\', c]
  }

  function RenderBody(style: Style, w: string): string {
    if w == "" then "" else RenderBody(style, w[..|w| - 1]) + RenderChar(style, w[|w| - 1])
  }

  function RenderWord(style: Style, w: string): string {
    match style
    case Single => "'" + RenderBody(style, w) + "'"
    case Double => "\"" + RenderBody(style, w) + "\""
    case Escaped => RenderBody(style, w)
  }

  function Render(items: seq<Item>): string {
    if items == [] then ""
    else
      var last := items[|items| - 1];
      var word := RenderWord(last.style, last.word);
      if |items| == 1 then word else Render(items[..|items| - 1]) + last.gap + word
  }

  function WordsOf(items: seq<Item>): seq<string> {
    seq(|items|, i requires 0 <= i < |items| => items[i].word)
  }

  predicate IsGap(s: string) {
    s != "" && forall i :: 0 <= i < |s| ==> IsSpace(s[i])
  }

  /** Words are kept apart, and without quotes there is something to read. */
  predicate Renderable(items: seq<Item>) {
    && items != []
    && (forall i :: 0 < i < |items| ==> IsGap(items[i].gap))
    && forall i :: 0 <= i < |items| ==> (items[i].style == Escaped ==> items[i].word != "")
  }

  lemma {:induction false} FeedConcat(m: Machine, a: string, b: string)
    ensures Feed(m, a + b) == Feed(Feed(m, a), b)
  {
    if b == "" {
      assert a + b == a;
    } else {
      assert (a + b)[..|a + b| - 1] == a + b[..|b| - 1];
      FeedConcat(m, a, b[..|b| - 1]);
    }
  }

  lemma FeedOne(m: Machine, c: char)
    ensures Feed(m, [c]) == Next(m, c)
  {
    assert Feed(m, [c][..0]) == m;
  }

  lemma FeedTwo(m: Machine, a: char, b: char)
    ensures Feed(m, [a, b]) == Next(Next(m, a), b)
  {
    FeedConcat(m, [a], [b]);
    FeedOne(m, a);
    FeedOne(Next(m, a), b);
    assert [a] + [b] == [a, b];
  }

  function BodyMode(style: Style): Mode {
    match style
    case Single => InSingle
    case Double => InDouble
    case Escaped => Plain
  }

  lemma FeedChar(m: Machine, style: Style, c: char)
    requires m.mode == BodyMode(style)
    ensures Feed(m, RenderChar(style, c)) == m.(cur := m.cur + [c])
  {
    if style == Single && c == '\'' {
      FeedTwo(m, '\'', '\\');
      FeedTwo(Next(Next(m, '\''), '\\'), '\'', '\'');
      FeedConcat(m, "'\\", "''");
      assert "'\\" + "''" == "'\\''";
    } else if RenderChar(style, c) == [c] {
      FeedOne(m, c);
    } else {
      FeedTwo(m, '\\', c);
    }
  }

  lemma FeedOneMore(m: Machine, text: string, w: string, piece: string, c: char, m': Machine, m'': Machine)
    requires Feed(m, text) == m' && Feed(m', piece) == m''
    requires m' == m.(cur := m.cur + w) && m'' == m'.(cur := m'.cur + [c])
    ensures Feed(m, text + piece) == m.(cur := m.cur + (w + [c]))
  {
    FeedConcat(m, text, piece);
    assert m.cur + w + [c] == m.cur + (w + [c]);
  }

  lemma {:induction false} FeedBody(m: Machine, style: Style, w: string)
    requires m.mode == BodyMode(style)
    ensures Feed(m, RenderBody(style, w)) == m.(cur := m.cur + w)
  {
    if w == "" {
      assert m.cur + w == m.cur;
    } else {
      var front, c := w[..|w| - 1], w[|w| - 1];
      var m' := m.(cur := m.cur + front);
      FeedBody(m, style, front);
      FeedChar(m', style, c);
      FeedOneMore(m, RenderBody(style, front), front, RenderChar(style, c), c, m', m'.(cur := m'.cur + [c]));
      assert w == front + [c];
    }
  }

  /** After a gap a word begins like the first one. */
  lemma {:induction false} GapBegins(m: Machine, s: string)
    requires m.mode.Gap? && s != "" && !IsSpace(s[0])
    ensures Feed(m, s) == Feed(m.(mode := Plain), s)
  {
    if |s| == 1 {
      FeedOne(m, s[0]);
      FeedOne(m.(mode := Plain), s[0]);
      assert s == [s[0]];
    } else {
      GapBegins(m, s[..|s| - 1]);
    }
  }

  lemma {:induction false} FeedGap(m: Machine, gap: string)
    requires m.mode.Plain? && IsGap(gap)
    ensures Feed(m, gap) == Machine(Gap, "", m.res + [m.cur])
  {
    if |gap| == 1 {
      FeedOne(m, gap[0]);
      assert gap == [gap[0]];
    } else {
      FeedGap(m, gap[..|gap| - 1]);
    }
  }

  lemma FeedQuoted(m: Machine, q: char, style: Style, w: string)
    requires m.mode.Plain? && m.cur == "" && ((q == '\'' && style == Single) || (q == '"' && style == Double))
    ensures Feed(m, [q] + RenderBody(style, w) + [q]) == m.(cur := w)
  {
    var body, open := RenderBody(style, w), m.(mode := BodyMode(style));
    FeedOne(m, q);
    FeedConcat(m, [q], body);
    FeedBody(open, style, w);
    assert open.cur + w == w;
    FeedConcat(m, [q] + body, [q]);
    FeedOne(open.(cur := w), q);
  }

  lemma FeedPlainWord(m: Machine, style: Style, w: string)
    requires m.mode.Plain? && m.cur == ""
    ensures Feed(m, RenderWord(style, w)) == m.(cur := w)
  {
    match style {
      case Single => FeedQuoted(m, '\'', style, w);
      case Double => FeedQuoted(m, '"', style, w);
      case Escaped =>
        FeedBody(m, style, w);
        assert m.cur + w == w;
    }
  }

  lemma {:induction false} EscapedBegins(w: string)
    requires w != ""
    ensures RenderBody(Escaped, w) != "" && RenderBody(Escaped, w)[0] == '\\'
  {
    if |w| > 1 { EscapedBegins(w[..|w| - 1]); }
  }

  lemma FeedWord(m: Machine, style: Style, w: string)
    requires (m.mode.Plain? || m.mode.Gap?) && m.cur == "" && (style == Escaped ==> w != "")
    ensures Feed(m, RenderWord(style, w)) == Machine(Plain, w, m.res)
  {
    FeedPlainWord(m.(mode := Plain), style, w);
    if m.mode.Gap? {
      if style == Escaped { EscapedBegins(w); }
      GapBegins(m, RenderWord(style, w));
    }
  }

  /** The machine reads the last of the words. */
  predicate ReadsLast(m: Machine, ws: seq<string>) {
    ws != [] && m == Machine(Plain, ws[|ws| - 1], ws[..|ws| - 1])
  }

  lemma OneMoreWord(text: string, ws: seq<string>, last: Item)
    requires ReadsLast(Feed(START, text), ws) && IsGap(last.gap) && (last.style == Escaped ==> last.word != "")
    ensures ReadsLast(Feed(START, text + last.gap + RenderWord(last.style, last.word)), ws + [last.word])
  {
    FeedConcat(START, text, last.gap);
    FeedGap(Feed(START, text), last.gap);
    assert ws == ws[..|ws| - 1] + [ws[|ws| - 1]];
    FeedConcat(START, text + last.gap, RenderWord(last.style, last.word));
    FeedWord(Machine(Gap, "", ws), last.style, last.word);
    assert (ws + [last.word])[..|ws|] == ws;
  }

  lemma FirstWord(first: Item)
    requires first.style == Escaped ==> first.word != ""
    ensures ReadsLast(Feed(START, RenderWord(first.style, first.word)), [first.word])
  {
    FeedWord(START, first.style, first.word);
  }

  lemma {:induction false} FeedRendered(items: seq<Item>, text: string, ws: seq<string>)
    requires Renderable(items) && text == Render(items) && ws == WordsOf(items)
    ensures ReadsLast(Feed(START, text), ws)
    decreases |items|
  {
    var front, last := items[..|items| - 1], items[|items| - 1];
    assert ws == WordsOf(front) + [last.word];
    if |items| == 1 {
      FirstWord(last);
    } else {
      FeedRendered(front, Render(front), WordsOf(front));
      OneMoreWord(Render(front), WordsOf(front), last);
    }
  }

  /** Any nonempty list of words is read back unchanged, whichever way each of them is written and whatever white
      space is between them. */
  lemma ParseInvertsRender(items: seq<Item>)
    requires Renderable(items)
    ensures Parse(Render(items)) == Words(WordsOf(items))
  {
    FeedRendered(items, Render(items), WordsOf(items));
    FinishPlain(Feed(START, Render(items)), WordsOf(items));
  }

  lemma FinishPlain(m: Machine, ws: seq<string>)
    requires ReadsLast(m, ws)
    ensures Finish(m) == Words(ws)
  {
    assert ws == ws[..|ws| - 1] + [ws[|ws| - 1]];
  }
}
