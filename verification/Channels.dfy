/** The file that lists the subscribed channels (`bsd-channel`): one line per channel, its URL and its name. */
module Channels {
  import opened Basics
  import opened Versions
  import Selectors

  // ----- Splitting at a separator -----

  /** The tokens completed so far and the one being read. */
  datatype Splitter = Splitter(tokens: seq<string>, cur: string)

  function Close(t: Splitter): Splitter {
    if t.cur == "" then t else Splitter(t.tokens + [t.cur], "")
  }

  function Split(t: Splitter, s: string, sep: char): Splitter {
    if s == "" then t
    else
      var u := Split(t, s[..|s| - 1], sep);
      if s[|s| - 1] == sep then Close(u) else Splitter(u.tokens, u.cur + [s[|s| - 1]])
  }

  /** The longest pieces without separators; there are no empty ones. */
  function Tokens(s: string, sep: char): seq<string> {
    Close(Split(Splitter([], ""), s, sep)).tokens
  }

  predicate Free(s: string, c: char) {
    forall i :: 0 <= i < |s| ==> s[i] != c
  }

  lemma {:induction false} SplitConcat(t: Splitter, a: string, b: string, sep: char)
    ensures Split(t, a + b, sep) == Split(Split(t, a, sep), b, sep)
  {
    if b == "" {
      assert a + b == a;
    } else {
      assert (a + b)[..|a + b| - 1] == a + b[..|b| - 1];
      SplitConcat(t, a, b[..|b| - 1], sep);
    }
  }

  lemma {:induction false} SplitFree(t: Splitter, s: string, sep: char)
    requires Free(s, sep)
    ensures Split(t, s, sep) == Splitter(t.tokens, t.cur + s)
  {
    if s == "" {
      assert t.cur + s == t.cur;
    } else {
      SplitFree(t, s[..|s| - 1], sep);
      assert t.cur + s == t.cur + s[..|s| - 1] + [s[|s| - 1]];
    }
  }

  lemma {:induction false} SplitSeparators(t: Splitter, s: string, sep: char)
    requires t.cur == "" && forall i :: 0 <= i < |s| ==> s[i] == sep
    ensures Split(t, s, sep) == t
  {
    if s != "" { SplitSeparators(t, s[..|s| - 1], sep); }
  }

  /** A nonempty piece followed by a separator is one more token. */
  lemma SplitPiece(t: Splitter, s: string, sep: char)
    requires t.cur == "" && s != "" && Free(s, sep)
    ensures Split(t, s + [sep], sep) == Splitter(t.tokens + [s], "")
  {
    SplitConcat(t, s, [sep], sep);
    SplitFree(t, s, sep);
    assert t.cur + s == s;
    var u := Splitter(t.tokens, s);
    assert Split(u, [sep][..0], sep) == u;
  }

  /** Up to pos, exactly these tokens are complete. */
  ghost predicate CompleteAt(s: string, pos: nat, sep: char, tokens: seq<string>)
    requires pos <= |s|
  {
    Split(Splitter([], ""), s[..pos], sep) == Splitter(tokens, "")
  }

  lemma ReadToken(a: string, token: string, sep: char, tokens: seq<string>)
    requires Split(Splitter([], ""), a, sep) == Splitter(tokens, "") && Free(token, sep)
    ensures Split(Splitter([], ""), a + token, sep) == Splitter(tokens, token)
  {
    SplitConcat(Splitter([], ""), a, token, sep);
    SplitFree(Splitter(tokens, ""), token, sep);
    assert "" + token == token;
  }

  lemma CloseToken(a: string, token: string, sep: char, tokens: seq<string>)
    requires Split(Splitter([], ""), a, sep) == Splitter(tokens, token) && token != ""
    ensures Tokens(a, sep) == tokens + [token]
    ensures Split(Splitter([], ""), a + [sep], sep) == Splitter(tokens + [token], "")
  {
    assert (a + [sep])[..|a|] == a;
  }

  lemma TokenEnds(s: string, pos: nat, end: nat, sep: char, tokens: seq<string>, token: string)
    requires pos < end <= |s| && CompleteAt(s, pos, sep, tokens) && token == s[pos..end] && Free(token, sep)
    ensures end == |s| ==> Tokens(s, sep) == tokens + [token]
    ensures end < |s| && s[end] == sep ==> CompleteAt(s, end + 1, sep, tokens + [token])
  {
    ReadToken(s[..pos], token, sep, tokens);
    assert s[..pos] + token == s[..end];
    CloseToken(s[..end], token, sep, tokens);
    if end == |s| {
      assert s[..end] == s;
    } else if s[end] == sep {
      assert s[..end + 1] == s[..end] + [sep];
    }
  }

  method FindSeparator(s: string, pos: nat, sep: char) returns (end: nat)
    requires pos < |s| && s[pos] != sep
    ensures pos < end <= |s| && Free(s[pos..end], sep) && (end < |s| ==> s[end] == sep)
  {
    end := pos + 1;
    while end < |s| && s[end] != sep
      invariant pos < end <= |s| && Free(s[pos..end], sep)
    {
      assert s[pos..end + 1] == s[pos..end] + [s[end]];
      end := end + 1;
    }
  }

  /** As the program does it: skip separators, then find the end of the token. */
  method Tokenize(s: string, sep: char) returns (tokens: seq<string>)
    ensures tokens == Tokens(s, sep)
  {
    tokens := [];
    var pos := SkipSeparators(s, 0, sep, []);
    while pos < |s|
      invariant 0 <= pos <= |s| && (pos < |s| ==> s[pos] != sep) && CompleteAt(s, pos, sep, tokens)
      decreases |s| - pos
    {
      var end := FindSeparator(s, pos, sep);
      TokenEnds(s, pos, end, sep, tokens, s[pos..end]);
      tokens := tokens + [s[pos..end]];
      if end == |s| { return; }
      pos := SkipSeparators(s, end + 1, sep, tokens);
    }
    assert s[..pos] == s;
  }

  method SkipSeparators(s: string, start: nat, sep: char, ghost tokens: seq<string>) returns (pos: nat)
    requires start <= |s| && CompleteAt(s, start, sep, tokens)
    ensures start <= pos <= |s| && (pos < |s| ==> s[pos] != sep) && CompleteAt(s, pos, sep, tokens)
  {
    pos := start;
    while pos < |s| && s[pos] == sep
      invariant start <= pos <= |s| && CompleteAt(s, pos, sep, tokens)
    {
      assert s[..pos + 1][..pos] == s[..pos];
      pos := pos + 1;
    }
  }

  // ----- Reading -----

  predicate IsComment(line: string) {
    line != "" && (line[0] == '#' || (IsSpace(line[0]) && IsComment(line[1..])))
  }

  function StripSlashes(s: string): string {
    if s != "" && s[|s| - 1] == '/' then StripSlashes(s[..|s| - 1]) else s
  }

  /** The part after the last slash of a URL that does not end in one. */
  function BaseName(url: string): string {
    if url == "" || url[|url| - 1] == '/' then ""
    else BaseName(url[..|url| - 1]) + [url[|url| - 1]]
  }

  /** `NoWords`: the line has nothing but spaces in it, and the program uses the first word of none. */
  datatype Line = Comment | NoWords | Channel(name: string, url: string)

  function ParseLine(line: string): Line {
    if IsComment(line) then Comment
    else
      var words := Tokens(line, ' ');
      if words == [] then NoWords
      else
        var url := StripSlashes(words[0]);
        Channel(if |words| > 1 then words[1] else BaseName(url), url)
  }

  datatype Loaded = Loaded(channels: map<string, string>) | Undefined

  function Load(lines: seq<string>): Loaded {
    if lines == [] then Loaded(map[])
    else
      var before := Load(lines[..|lines| - 1]);
      if before.Undefined? then before
      else match ParseLine(lines[|lines| - 1])
        case Comment => before
        case NoWords => Undefined
        case Channel(name, url) => Loaded(before.channels[name := url])
  }

  function ReadFile(text: string): Loaded {
    Load(Tokens(text, '\n'))
  }

  method ReadChannels(text: string) returns (r: Loaded)
    ensures r == ReadFile(text)
  {
    var lines := Tokenize(text, '\n');
    r := Loaded(map[]);
    for k := 0 to |lines|
      invariant r.Loaded? && r == Load(lines[..k])
    {
      assert lines[..k + 1][..k] == lines[..k];
      match ParseLine(lines[k]) {
        case Comment =>
        case NoWords =>
          LoadStops(lines, k + 1, |lines|);
          assert lines[..|lines|] == lines;
          return Undefined;
        case Channel(name, url) => r := Loaded(r.channels[name := url]);
      }
    }
    assert lines[..|lines|] == lines;
  }

  lemma {:induction false} LoadStops(lines: seq<string>, j: nat, k: nat)
    requires j <= k <= |lines| && Load(lines[..j]).Undefined?
    ensures Load(lines[..k]).Undefined?
    decreases k - j
  {
    if j < k {
      assert lines[..k][..k - 1] == lines[..k - 1];
      LoadStops(lines, j, k - 1);
    }
  }

  // ----- Writing -----

  function LineFor(name: string, url: string): string {
    url + " " + name
  }

  function WriteFile(m: map<string, string>, names: seq<string>): string
    requires forall x :: x in names ==> x in m
  {
    if names == [] then ""
    else
      var name := names[|names| - 1];
      WriteFile(m, names[..|names| - 1]) + (LineFor(name, m[name]) + "\n")
  }

  /** The keys of a map, in order. */
  ghost predicate Enumerates(names: seq<string>, m: map<string, string>) {
    Increasing(names) && forall x :: x in names <==> x in m
  }

  /** The file with one line for every channel, in the order of their names. */
  ghost predicate FileFor(m: map<string, string>, text: string) {
    exists names :: Enumerates(names, m) && text == WriteFile(m, names)
  }

  method WriteChannels(m: map<string, string>) returns (text: string)
    ensures FileFor(m, text)
  {
    var names := Selectors.SortedKeys(m.Keys);
    text := "";
    for k := 0 to |names|
      invariant text == WriteFile(m, names[..k])
    {
      assert names[..k + 1][..k] == names[..k];
      text := text + (LineFor(names[k], m[names[k]]) + "\n");
    }
    assert names[..|names|] == names;
    assert Enumerates(names, m);
  }

  // ----- What addChannel accepts -----

  predicate IsWordChar(c: char) {
    IsAlpha(c) || IsDigit(c) || c == '_'
  }

  predicate ValidName(s: string) {
    s != "" && IsWordChar(s[0]) && forall i :: 0 <= i < |s| ==> IsWordChar(s[i]) || s[i] == '.' || s[i] == '-'
  }

  predicate ValidUrl(s: string) {
    "file://" <= s || "http://" <= s || "https://" <= s
  }

  predicate ValidChannels(m: map<string, string>) {
    forall x :: x in m ==> ValidName(x) && ValidUrl(m[x])
  }

  function Stripped(m: map<string, string>): map<string, string> {
    map x | x in m :: StripSlashes(m[x])
  }

  predicate Writable(s: string) {
    Free(s, ' ') && Free(s, '\n')
  }

  datatype Added = InvalidUrl | InvalidName | Unreadable | Written(text: string)

  /** Adds a channel to the file, or replaces the URL of one. */
  method AddChannel(text: string, url: string, name: string) returns (r: Added)
    ensures r.InvalidUrl? <==> !ValidUrl(url)
    ensures r.InvalidName? <==> ValidUrl(url) && !ValidName(name)
    ensures r.Unreadable? <==> ValidUrl(url) && ValidName(name) && ReadFile(text).Undefined?
    ensures r.Written? ==> ReadFile(text).Loaded? && FileFor(ReadFile(text).channels[name := url], r.text)
  {
    if !ValidUrl(url) { return InvalidUrl; }
    if !ValidName(name) { return InvalidName; }
    var channels := ReadChannels(text);
    if channels.Undefined? { return Unreadable; }
    var written := WriteChannels(channels.channels[name := url]);
    return Written(written);
  }
}
