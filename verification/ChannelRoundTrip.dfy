/** Reading back a channel file that was written: exactly which channels come back. */
module ChannelRoundTrip {
  import opened Basics
  import opened Channels

  // ----- Reading back what was written -----

  /** Cannot be taken for a comment, nor be reduced to nothing. */
  predicate StartsPlainly(url: string) {
    url != "" && !IsSpace(url[0]) && url[0] != '#' && url[0] != '/'
  }

  lemma ValidUrlStart(url: string)
    requires ValidUrl(url)
    ensures StartsPlainly(url)
  {
  }

  lemma LineTokens(name: string, url: string)
    requires name != "" && url != "" && Free(name, ' ') && Free(url, ' ')
    ensures Tokens(LineFor(name, url), ' ') == [url, name]
  {
    var t := Splitter([], "");
    SplitPiece(t, url, ' ');
    SplitConcat(t, url + [' '], name, ' ');
    assert [] + [url] == [url];
    SplitFree(Splitter([url], ""), name, ' ');
    assert "" + name == name && [url] + [name] == [url, name];
  }

  lemma NotComment(name: string, url: string)
    requires StartsPlainly(url)
    ensures !IsComment(LineFor(name, url))
  {
    assert LineFor(name, url)[0] == url[0];
  }

  /** The line written for a channel reads back as that channel. */
  predicate GoodLine(name: string, url: string) {
    ParseLine(LineFor(name, url)) == Channel(name, StripSlashes(url))
  }

  /** The URL is there, and its line cannot be taken for a comment. */
  predicate Safe(name: string, url: string) {
    url != "" && !IsComment(LineFor(name, url))
  }

  lemma LineParses(name: string, url: string)
    requires name != "" && Writable(name) && Writable(url) && Safe(name, url)
    ensures GoodLine(name, url)
  {
    LineTokens(name, url);
  }

  /** Nothing that is written splits a line. */
  ghost predicate OneLineEach(m: map<string, string>, names: seq<string>) {
    forall x :: x in names ==> x in m && Free(LineFor(x, m[x]), '\n')
  }

  ghost predicate AllWritable(m: map<string, string>) {
    forall x :: x in m ==> Writable(m[x])
  }

  ghost predicate AllGood(m: map<string, string>, names: seq<string>) {
    forall x :: x in names ==> x in m && GoodLine(x, m[x])
  }

  /** The lines of the file. */
  function LinesFor(m: map<string, string>, names: seq<string>): seq<string>
    requires forall x :: x in names ==> x in m
  {
    if names == [] then []
    else
      var name := names[|names| - 1];
      LinesFor(m, names[..|names| - 1]) + [LineFor(name, m[name])]
  }

  lemma {:induction false} WrittenTokens(m: map<string, string>, names: seq<string>)
    requires OneLineEach(m, names)
    ensures Split(Splitter([], ""), WriteFile(m, names), '\n') == Splitter(LinesFor(m, names), "")
  {
    if names != [] {
      var front, name := names[..|names| - 1], names[|names| - 1];
      WrittenTokens(m, front);
      assert name in names;
      OneMoreLine(WriteFile(m, front), LinesFor(m, front), LineFor(name, m[name]));
    }
  }

  lemma OneMoreLine(text: string, lines: seq<string>, line: string)
    requires Split(Splitter([], ""), text, '\n') == Splitter(lines, "") && line != "" && Free(line, '\n')
    ensures Split(Splitter([], ""), text + (line + "\n"), '\n') == Splitter(lines + [line], "")
  {
    SplitConcat(Splitter([], ""), text, line + ['\n'], '\n');
    SplitPiece(Splitter(lines, ""), line, '\n');
  }

  function SomeStripped(m: map<string, string>, names: seq<string>): map<string, string> {
    map x | x in m && x in names :: StripSlashes(m[x])
  }

  lemma StrippedGrows(m: map<string, string>, front: seq<string>, name: string)
    requires name in m
    ensures SomeStripped(m, front + [name]) == SomeStripped(m, front)[name := StripSlashes(m[name])]
  {
    assert forall x :: x in front + [name] <==> x in front || x == name;
  }

  lemma {:induction false} LoadLines(m: map<string, string>, names: seq<string>)
    requires AllGood(m, names)
    ensures Load(LinesFor(m, names)) == Loaded(SomeStripped(m, names))
  {
    if names != [] {
      var front, name := names[..|names| - 1], names[|names| - 1];
      assert names == front + [name] && name in names;
      LoadLines(m, front);
      StrippedGrows(m, front, name);
      LoadOneMore(LinesFor(m, front), name, m[name]);
    }
  }

  lemma LoadOneMore(lines: seq<string>, name: string, url: string)
    requires Load(lines).Loaded? && GoodLine(name, url)
    ensures Load(lines + [LineFor(name, url)]) == Loaded(Load(lines).channels[name := StripSlashes(url)])
  {
    var all := lines + [LineFor(name, url)];
    assert all[..|all| - 1] == lines;
  }

  /** Names without spaces, and URLs that are not reduced to nothing. */
  ghost predicate NamesFit(m: map<string, string>) {
    forall x :: x in m ==> Writable(x) && (m[x] != "" ==> x != "" && StripSlashes(m[x]) != "")
  }

  ghost predicate AllSafe(m: map<string, string>) {
    forall x :: x in m ==> Safe(x, m[x])
  }

  lemma OneLine(name: string, url: string)
    requires Writable(name) && Writable(url)
    ensures Free(LineFor(name, url), '\n')
  {
  }

  lemma FileLines(m: map<string, string>, names: seq<string>)
    requires NamesFit(m) && AllWritable(m) && forall x :: x in names ==> x in m
    ensures ReadFile(WriteFile(m, names)) == Load(LinesFor(m, names))
  {
    forall x | x in names ensures Free(LineFor(x, m[x]), '\n') { OneLine(x, m[x]); }
    WrittenTokens(m, names);
  }

  lemma SafeReadsBack(m: map<string, string>, text: string)
    requires NamesFit(m) && AllWritable(m) && AllSafe(m) && FileFor(m, text)
    ensures ReadFile(text) == Loaded(Stripped(m))
  {
    var names :| Enumerates(names, m) && text == WriteFile(m, names);
    FileLines(m, names);
    forall x | x in names ensures x in m && GoodLine(x, m[x]) { LineParses(x, m[x]); }
    LoadLines(m, names);
    assert SomeStripped(m, names) == Stripped(m);
  }

  lemma ValidIsSafe(m: map<string, string>)
    requires ValidChannels(m)
    ensures NamesFit(m) && AllSafe(m)
  {
    forall x | x in m ensures Safe(x, m[x]) && Writable(x) && x != "" && StripSlashes(m[x]) != "" {
      ValidUrlStart(m[x]);
      NotComment(x, m[x]);
      StripTwice(m[x]);
    }
  }

  lemma {:induction false} StripTwice(s: string)
    ensures StripSlashes(StripSlashes(s)) == StripSlashes(s)
    ensures StripSlashes(s) != "" ==> StripSlashes(s)[|StripSlashes(s)| - 1] != '/'
    ensures StartsPlainly(s) ==> StartsPlainly(StripSlashes(s))
  {
    if s != "" && s[|s| - 1] == '/' {
      if |s| > 1 { assert s[..|s| - 1][0] == s[0]; }
      StripTwice(s[..|s| - 1]);
    }
  }

  lemma StrippedFits(name: string, url: string)
    requires Writable(url) && StartsPlainly(url)
    ensures var u := StripSlashes(url); StartsPlainly(u) && Writable(u) && StripSlashes(u) == u && Safe(name, u)
  {
    StripTwice(url);
    StripKeepsFree(url, ' ');
    StripKeepsFree(url, '\n');
    NotComment(name, StripSlashes(url));
  }

  /** Once read back, writing and reading is the identity. */
  lemma SecondRoundTrip(m: map<string, string>, text: string)
    requires ValidChannels(m) && AllWritable(m) && FileFor(Stripped(m), text)
    ensures ReadFile(text) == Loaded(Stripped(m))
  {
    ValidIsSafe(m);
    forall x | x in m
      ensures StripSlashes(m[x]) != "" && Safe(x, StripSlashes(m[x])) && Writable(StripSlashes(m[x]))
      ensures StripSlashes(StripSlashes(m[x])) == StripSlashes(m[x])
    {
      ValidUrlStart(m[x]);
      StrippedFits(x, m[x]);
    }
    assert Stripped(Stripped(m)) == Stripped(m);
    SafeReadsBack(Stripped(m), text);
  }

  // ----- And only then -----

  /** Tokens hold no separators, and nothing that was not in the text. */
  lemma {:induction false} SplitKeepsFree(t: Splitter, s: string, sep: char, c: char)
    requires (c == sep || Free(s, c)) && Free(t.cur, c) && forall x :: x in t.tokens ==> Free(x, c)
    ensures var u := Split(t, s, sep); Free(u.cur, c) && forall x :: x in u.tokens ==> Free(x, c)
  {
    if s != "" { SplitKeepsFree(t, s[..|s| - 1], sep, c); }
  }

  lemma TokensKeepFree(s: string, sep: char, c: char)
    requires c == sep || Free(s, c)
    ensures forall x :: x in Tokens(s, sep) ==> Free(x, c)
  {
    SplitKeepsFree(Splitter([], ""), s, sep, c);
  }

  lemma {:induction false} StripKeepsFree(s: string, c: char)
    requires c != '/'
    ensures Free(StripSlashes(s), c) <==> Free(s, c)
  {
    if s != "" && s[|s| - 1] == '/' { StripKeepsFree(s[..|s| - 1], c); }
  }

  lemma {:induction false} SplitNonempty(t: Splitter, s: string, sep: char)
    requires forall x :: x in t.tokens ==> x != ""
    ensures forall x :: x in Split(t, s, sep).tokens ==> x != ""
  {
    if s != "" { SplitNonempty(t, s[..|s| - 1], sep); }
  }

  lemma {:induction false} BaseNameFree(url: string, c: char)
    requires Free(url, c)
    ensures Free(BaseName(url), c)
  {
    if url != "" { BaseNameFree(url[..|url| - 1], c); }
  }

  /** What can be said of every channel of a file, whatever is in it. */
  predicate AsLoaded(name: string, url: string) {
    Writable(url) && Writable(name) && StripSlashes(url) == url && (url != "" ==> name != "")
  }

  lemma WordsOfLine(line: string)
    requires Free(line, '\n')
    ensures forall w :: w in Tokens(line, ' ') ==> w != "" && Writable(w)
  {
    TokensKeepFree(line, ' ', ' ');
    TokensKeepFree(line, ' ', '\n');
    SplitNonempty(Splitter([], ""), line, ' ');
  }

  lemma ParsedAsLoaded(line: string)
    requires Free(line, '\n') && ParseLine(line).Channel?
    ensures AsLoaded(ParseLine(line).name, ParseLine(line).url)
  {
    var words := Tokens(line, ' ');
    WordsOfLine(line);
    assert words[0] in words && (|words| > 1 ==> words[1] in words);
    var url := StripSlashes(words[0]);
    StripKeepsFree(words[0], ' ');
    StripKeepsFree(words[0], '\n');
    StripTwice(words[0]);
    BaseNameFree(url, ' ');
    BaseNameFree(url, '\n');
  }

  lemma {:induction false} LoadedEntries(lines: seq<string>)
    requires forall l :: l in lines ==> Free(l, '\n')
    ensures Load(lines).Loaded? ==> forall x :: x in Load(lines).channels ==> AsLoaded(x, Load(lines).channels[x])
  {
    if lines != [] {
      LoadedEntries(lines[..|lines| - 1]);
      var line := lines[|lines| - 1];
      if ParseLine(line).Channel? { ParsedAsLoaded(line); }
    }
  }

  lemma FileEntries(text: string)
    ensures ReadFile(text).Loaded? ==>
              forall x :: x in ReadFile(text).channels ==> AsLoaded(x, ReadFile(text).channels[x])
  {
    TokensKeepFree(text, '\n', '\n');
    LoadedEntries(Tokens(text, '\n'));
  }

  // ----- What becomes of lines that are not safe -----

  lemma OneWord(name: string)
    requires name != "" && Free(name, ' ')
    ensures Tokens(LineFor(name, ""), ' ') == [name]
  {
    var t := Splitter([], "");
    SplitSeparators(t, " ", ' ');
    assert LineFor(name, "") == " " + name;
    SplitConcat(t, " ", name, ' ');
    SplitFree(t, name, ' ');
    assert "" + name == name && [] + [name] == [name];
  }

  lemma NoWord()
    ensures ParseLine(LineFor("", "")) == NoWords
  {
    SplitSeparators(Splitter([], ""), " ", ' ');
    assert LineFor("", "") == " ";
    assert !IsComment(" ") by { assert " "[1..] == ""; }
  }

  /** What the line of a channel is read as. */
  lemma LineResult(name: string, url: string)
    requires Writable(name) && Writable(url) && (url != "" ==> name != "" && StripSlashes(url) != "")
    ensures var l := ParseLine(LineFor(name, url));
            && (l.Channel? && l.url == "" ==> l.name == "")
            && (l.Channel? && url != "" ==> l.name == name && !IsComment(LineFor(name, url)))
            && (name == "" && url == "" ==> l.NoWords?)
  {
    if url != "" {
      LineTokens(name, url);
    } else if name != "" {
      OneWord(name);
    } else {
      NoWord();
    }
  }

  ghost predicate EmptyUrlsUnnamed(m: map<string, string>) {
    forall x :: x in m && m[x] == "" ==> x == ""
  }

  /** No channel with a name is loaded with an empty URL, and a channel without both makes the file unreadable. */
  lemma {:induction false} LoadEmpty(m: map<string, string>, names: seq<string>)
    requires NamesFit(m) && AllWritable(m) && forall x :: x in names ==> x in m
    ensures var l := Load(LinesFor(m, names));
            (l.Loaded? ==> EmptyUrlsUnnamed(l.channels)) && ("" in names && m[""] == "" ==> l.Undefined?)
  {
    if names != [] {
      var front, name := names[..|names| - 1], names[|names| - 1];
      assert name in names && names == front + [name];
      LoadEmpty(m, front);
      LineResult(name, m[name]);
      LoadNext(m, front, name);
    }
  }

  lemma LoadNext(m: map<string, string>, front: seq<string>, name: string)
    requires (forall x :: x in front ==> x in m) && name in m
    ensures var before, l := Load(LinesFor(m, front)), ParseLine(LineFor(name, m[name]));
            Load(LinesFor(m, front + [name])) ==
              if before.Undefined? || l.NoWords? then Undefined
              else if l.Comment? then before else Loaded(before.channels[l.name := l.url])
  {
    assert (front + [name])[..|front|] == front;
    var lines := LinesFor(m, front + [name]);
    assert lines[..|lines| - 1] == LinesFor(m, front);
  }

  ghost predicate OnlySafe(m: map<string, string>, l: map<string, string>) {
    forall x :: x in l ==> x in m && Safe(x, m[x])
  }

  /** If there are no empty URLs, only channels with safe lines are loaded. */
  lemma {:induction false} LoadSafe(m: map<string, string>, names: seq<string>)
    requires NamesFit(m) && AllWritable(m) && (forall x :: x in names ==> x in m) && forall x :: x in m ==> m[x] != ""
    ensures var l := Load(LinesFor(m, names)); l.Loaded? ==> OnlySafe(m, l.channels)
  {
    if names != [] {
      var front, name := names[..|names| - 1], names[|names| - 1];
      assert name in names && names == front + [name];
      LoadSafe(m, front);
      LineResult(name, m[name]);
      LoadNext(m, front, name);
    }
  }

  lemma UnsafeIsLost(m: map<string, string>, names: seq<string>, x: string)
    requires NamesFit(m) && AllWritable(m) && Enumerates(names, m) && x in m && !Safe(x, m[x])
    ensures Load(LinesFor(m, names)) != Loaded(Stripped(m))
  {
    if y :| y in m && m[y] == "" {
      LoadEmpty(m, names);
      assert Stripped(m)[y] == "";
    } else {
      LoadSafe(m, names);
      assert x in Stripped(m);
    }
  }

  /** The file reads back as the channels written, with trailing slashes removed, exactly if no URL contains a space or
      a newline, none is empty, and no line looks like a comment. */
  lemma FitReadsBackIff(m: map<string, string>, text: string)
    requires NamesFit(m) && FileFor(m, text)
    ensures ReadFile(text) == Loaded(Stripped(m)) <==> AllWritable(m) && AllSafe(m)
  {
    if !AllWritable(m) {
      var x :| x in m && !Writable(m[x]);
      FileEntries(text);
      StripKeepsFree(m[x], ' ');
      StripKeepsFree(m[x], '\n');
      assert !Writable(Stripped(m)[x]);
    } else if AllSafe(m) {
      SafeReadsBack(m, text);
    } else {
      var x :| x in m && !Safe(x, m[x]);
      var names :| Enumerates(names, m) && text == WriteFile(m, names);
      FileLines(m, names);
      UnsafeIsLost(m, names, x);
    }
  }

  /** For all channels that can be added: the file reads back as the same channels, with trailing slashes removed,
      exactly if no URL contains a space or a newline, which adding a channel does not check. */
  lemma ReadsBackIff(m: map<string, string>, text: string)
    requires ValidChannels(m) && FileFor(m, text)
    ensures ReadFile(text) == Loaded(Stripped(m)) <==> AllWritable(m)
  {
    ValidIsSafe(m);
    FitReadsBackIff(m, text);
  }

  lemma AddedNames(m: map<string, string>, url: string, name: string, m': map<string, string>)
    requires forall x :: x in m ==> AsLoaded(x, m[x])
    requires StripSlashes(url) != "" && name != "" && Writable(name) && m' == m[name := url]
    ensures NamesFit(m')
  {
    forall x | x in m' ensures Writable(x) && (m'[x] != "" ==> x != "" && StripSlashes(m'[x]) != "") {
      if x != name { assert AsLoaded(x, m[x]) && m'[x] == m[x]; }
    }
  }

  lemma AddedStripped(m: map<string, string>, url: string, name: string, m': map<string, string>)
    requires (forall x :: x in m ==> AsLoaded(x, m[x])) && m' == m[name := url]
    ensures Stripped(m') == m[name := StripSlashes(url)]
  {
    forall x | x in m && x != name ensures StripSlashes(m[x]) == m[x] { assert AsLoaded(x, m[x]); }
  }

  lemma AddedWritable(m: map<string, string>, url: string, name: string, m': map<string, string>)
    requires AllWritable(m) && m' == m[name := url]
    ensures AllWritable(m') <==> Writable(url)
  {
    assert name in m' && m'[name] == url;
  }

  lemma AddedSafe(m: map<string, string>, url: string, name: string, m': map<string, string>)
    requires StartsPlainly(url) && m' == m[name := url]
    ensures AllSafe(m') <==> forall x :: x in m && x != name ==> Safe(x, m[x])
  {
    NotComment(name, url);
    assert forall x :: x in m && x != name ==> x in m' && m'[x] == m[x];
  }

  /** Adding a channel to any file that can be read: the new file reads back as the old channels and the new one
      exactly if the new URL contains no space and no newline, no other URL is empty, and no other line looks like
      a comment now. */
  lemma AddedReadsBackIff(text: string, m: map<string, string>, url: string, name: string, written: string)
    requires ReadFile(text) == Loaded(m) && ValidUrl(url) && ValidName(name) && FileFor(m[name := url], written)
    ensures ReadFile(written) == Loaded(m[name := StripSlashes(url)]) <==>
            Writable(url) && forall x :: x in m && x != name ==> Safe(x, m[x])
  {
    FileEntries(text);
    ValidUrlStart(url);
    StripTwice(url);
    AddedNames(m, url, name, m[name := url]);
    AddedStripped(m, url, name, m[name := url]);
    AddedWritable(m, url, name, m[name := url]);
    AddedSafe(m, url, name, m[name := url]);
    FitReadsBackIff(m[name := url], written);
  }
}
