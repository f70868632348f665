/** `FfmpegProcessManager.BuildArguments` and `EscapeArgument`: the ffmpeg
    command line that pulls the local RTMP feed and pushes it to the viewer's
    SRT listener, encrypted with the slot passphrase.

    The command line is a single string that is split into arguments again
    before ffmpeg sees them. `Split` below models that splitting by the rules
    `System.Diagnostics.Process` applies, which are those of the Windows C
    runtime: blanks outside quotes separate arguments; a quote toggles
    quoting; inside quotes a doubled quote stands for one quote; a run of
    backslashes followed by a quote stands for half as many backslashes and,
    when the run is odd, a literal quote; other backslashes are literal. */
module FfmpegArguments {
  import opened Wrappers
  import Text
  import SourceState
  import Encoding
  import AesKeyMaterial

  // ---------------------------------------------------------------------------
  // Escaping and building

  /** The escaping of one character: a quote gains a backslash. */
  function EscapeChar(c: char): string {
    if c == '"' then "\\\"" else [c]
  }

  /** `value.Replace("\"", "\\\"")`. */
  function EscapeQuotes(s: string): (r: string)
    ensures |r| == |s| + Text.CountChar(s, '"')
  {
    if s == [] then [] else EscapeChar(s[0]) + EscapeQuotes(s[1..])
  }

  /** `EscapeArgument(value, quote)`. */
  function Escape(value: string, quote: bool): string {
    if quote then "\"" + EscapeQuotes(value) + "\"" else EscapeQuotes(value)
  }

  /** Undoes `EscapeQuotes`: a backslash-quote pair stands for a quote. */
  function Unescape(s: string): string
    decreases |s|
  {
    if |s| >= 2 && s[0] == '\\' && s[1] == '"' then "\"" + Unescape(s[2..])
    else if s == [] then []
    else [s[0]] + Unescape(s[1..])
  }

  /** Escaping never starts with a bare quote: every quote it writes follows
      a backslash. */
  lemma EscapedHead(s: string)
    requires s != []
    ensures EscapeQuotes(s)[0] != '"'
  {
  }

  /** An escaped quote is read back as a quote. */
  lemma UnescapeQuote(rest: string)
    ensures Unescape("\\\"" + rest) == "\"" + Unescape(rest)
  {
    assert ("\\\"" + rest)[2..] == rest;
  }

  /** Any other character is kept, unless it is a backslash before a quote. */
  lemma UnescapeOther(c: char, rest: string)
    requires c != '"' && (c != '\\' || rest == [] || rest[0] != '"')
    ensures Unescape([c] + rest) == [c] + Unescape(rest)
  {
    assert ([c] + rest)[1..] == rest;
  }

  /** Escaping loses nothing: it is undone exactly, for every string. */
  lemma {:induction false} UnescapeEscape(s: string)
    ensures Unescape(EscapeQuotes(s)) == s
    decreases |s|
  {
    if s != [] {
      var rest := EscapeQuotes(s[1..]);
      UnescapeEscape(s[1..]);
      if s[0] == '"' {
        assert EscapeQuotes(s) == "\\\"" + rest;
        UnescapeQuote(rest);
      } else {
        assert EscapeQuotes(s) == [s[0]] + rest;
        if rest != [] {
          EscapedHead(s[1..]);
        }
        UnescapeOther(s[0], rest);
      }
      assert [s[0]] + s[1..] == s;
    }
  }

  /** The SRT URL ffmpeg calls: host, port and the one-time stream id. */
  function SrtUrl(session: SourceState.StreamSession): string {
    "srt://" + session.srtHost + ":" + Text.IntToString(session.srtPort) + "?mode=caller&streamid=" + session.streamKey
  }

  /** The RTMP feed ffmpeg reads. */
  function InputUrl(session: SourceState.StreamSession): string {
    session.localRtmpUrl + "/" + session.channelName
  }

  /** Tokens joined by single blanks. */
  function JoinSpace(ts: seq<string>): string
    decreases |ts|
  {
    if |ts| == 0 then "" else if |ts| == 1 then ts[0] else ts[0] + " " + JoinSpace(ts[1..])
  }

  /** The arguments ffmpeg is meant to receive, given the input URL, the
      passphrase and the SRT URL: read the input at its native rate, copy
      the streams into MPEG-TS, and send them to the SRT URL encrypted with
      the passphrase and a 32-byte key. */
  function Intended(input: string, passphrase: string, url: string): (r: seq<string>)
    ensures |r| == 14 && r[2] == input && r[10] == passphrase && r[13] == url
  {
    ["-re", "-i", input, "-c", "copy", "-f", "mpegts", "-flush_packets", "0",
     "-srt_passphrase", passphrase, "-srt_pbkeylen", "32", url]
  }

  /** `BuildArguments`, as written: the command line concatenates the
      tokens of `Intended` with one blank between neighbours, the input URL
      escaped but not quoted, the passphrase escaped, the SRT URL escaped
      and quoted. */
  function BuildArguments(session: SourceState.StreamSession, passphrase: string): string {
    JoinSpace(Intended(Escape(InputUrl(session), false), Escape(passphrase, false), Escape(SrtUrl(session), true)))
  }

  /** The command line with the input URL quoted like the SRT URL. */
  function CorrectedArguments(session: SourceState.StreamSession, passphrase: string): string {
    JoinSpace(Intended(Escape(InputUrl(session), true), Escape(passphrase, false), Escape(SrtUrl(session), true)))
  }

  /** Joining two non-empty token lists puts one blank between them. */
  lemma {:induction false} JoinAppend(xs: seq<string>, ys: seq<string>)
    requires xs != [] && ys != []
    ensures JoinSpace(xs + ys) == JoinSpace(xs) + " " + JoinSpace(ys)
    decreases |xs|
  {
    if |xs| == 1 {
      assert (xs + ys)[1..] == ys;
    } else {
      JoinAppend(xs[1..], ys);
      assert (xs + ys)[1..] == xs[1..] + ys;
    }
  }

  lemma JoinHead(a: string)
    ensures JoinSpace(["-re", "-i", a]) == "-re " + "-i " + a
  {
    assert JoinSpace(["-re", "-i", a][2..]) == a;
    assert "-re" + " " + ("-i" + " " + a) == ("-re" + " " + "-i" + " ") + a;
  }

  lemma JoinMiddle(b: string)
    ensures JoinSpace(["-c", "copy", "-f", "mpegts", "-flush_packets", "0", "-srt_passphrase", b])
      == "-c copy " + "-f mpegts " + "-flush_packets 0 " + "-srt_passphrase " + b
  {
    var words := ["-c", "copy", "-f", "mpegts", "-flush_packets", "0", "-srt_passphrase"];
    JoinAppend(words, [b]);
    assert words + [b] == ["-c", "copy", "-f", "mpegts", "-flush_packets", "0", "-srt_passphrase", b];
    assert JoinSpace(words) + " " == "-c copy " + "-f mpegts " + "-flush_packets 0 " + "-srt_passphrase ";
  }

  lemma JoinTail(c: string)
    ensures JoinSpace(["-srt_pbkeylen", "32", c]) == "-srt_pbkeylen 32 " + c
  {
    assert JoinSpace(["-srt_pbkeylen", "32", c][2..]) == c;
    assert "-srt_pbkeylen" + " " + ("32" + " " + c) == ("-srt_pbkeylen" + " " + "32" + " ") + c;
  }

  lemma JoinPieces(a: string, b: string, c: string)
    ensures JoinSpace(Intended(a, b, c)) ==
      ("-re " + "-i " + a) + " " + (("-c copy " + "-f mpegts " + "-flush_packets 0 " + "-srt_passphrase " + b)
        + " " + ("-srt_pbkeylen 32 " + c))
  {
    var head, mid, tail := ["-re", "-i", a], ["-c", "copy", "-f", "mpegts", "-flush_packets", "0", "-srt_passphrase", b],
      ["-srt_pbkeylen", "32", c];
    assert Intended(a, b, c) == head + (mid + tail);
    JoinAppend(head, mid + tail);
    JoinAppend(mid, tail);
    JoinHead(a);
    JoinMiddle(b);
    JoinTail(c);
  }

  /** The command line is the source's sequence of appends: "-re ", "-i ",
      the escaped input, a blank, "-c copy ", "-f mpegts ",
      "-flush_packets 0 ", "-srt_passphrase " and the escaped passphrase, a
      blank, "-srt_pbkeylen 32 ", and the quoted SRT URL last. */
  lemma ArgumentsText(session: SourceState.StreamSession, passphrase: string)
    ensures BuildArguments(session, passphrase) ==
      "-re " + "-i " + Escape(InputUrl(session), false) + " " + "-c copy " + "-f mpegts " + "-flush_packets 0 "
        + "-srt_passphrase " + Escape(passphrase, false) + " " + "-srt_pbkeylen 32 " + Escape(SrtUrl(session), true)
  {
    var a, b, c := Escape(InputUrl(session), false), Escape(passphrase, false), Escape(SrtUrl(session), true);
    JoinPieces(a, b, c);
    ConcatPieces(a, b, c);
  }

  lemma ConcatPieces(a: string, b: string, c: string)
    ensures ("-re " + "-i " + a) + " " + (("-c copy " + "-f mpegts " + "-flush_packets 0 " + "-srt_passphrase " + b)
        + " " + ("-srt_pbkeylen 32 " + c))
      == "-re " + "-i " + a + " " + "-c copy " + "-f mpegts " + "-flush_packets 0 "
        + "-srt_passphrase " + b + " " + "-srt_pbkeylen 32 " + c
  {
  }

  /** Replacing the token `u + " " + v` by the two tokens `u` and `v` leaves
      the joined line unchanged. */
  lemma {:induction false} JoinSpaceSplit(ts: seq<string>, i: nat, u: string, v: string)
    requires i < |ts| && ts[i] == u + " " + v
    ensures JoinSpace(ts) == JoinSpace(ts[..i] + [u, v] + ts[i + 1..])
    decreases i
  {
    var ts' := ts[..i] + [u, v] + ts[i + 1..];
    if i == 0 {
      assert ts' == [u, v] + ts[1..];
      assert ts'[1..] == [v] + ts[1..];
      assert ts'[2..] == ts[1..];
      if |ts| == 1 {
        assert JoinSpace(ts'[1..]) == v;
      } else {
        assert JoinSpace(ts'[1..]) == v + " " + JoinSpace(ts[1..]);
      }
    } else {
      JoinSpaceSplit(ts[1..], i - 1, u, v);
      assert ts'[0] == ts[0];
      assert ts'[1..] == ts[1..][..i - 1] + [u, v] + ts[1..][i..];
    }
  }

  // ---------------------------------------------------------------------------
  // Splitting a command line

  predicate IsBlank(c: char) {
    c == ' ' || c == '\t'
  }

  /** The splitter's state: the finished arguments, the one being built,
      whether one is being built, and whether inside quotes. */
  datatype Splitter = Splitter(args: seq<string>, cur: string, inArg: bool, quoted: bool)

  function Start(args: seq<string>): Splitter {
    Splitter(args, "", false, false)
  }

  function Emit(st: Splitter, t: string): Splitter {
    st.(cur := st.cur + t, inArg := true)
  }

  /** The number of backslashes `s` starts with. */
  function Backslashes(s: string): (n: nat)
    ensures n <= |s|
    ensures forall i :: 0 <= i < n ==> s[i] == '\\'
    ensures n < |s| ==> s[n] != '\\'
  {
    if s == [] || s[0] != '\\' then 0 else 1 + Backslashes(s[1..])
  }

  /** One step of the splitter on a non-empty rest `s`: the state afterwards
      and how many characters it consumed. */
  function Step(st: Splitter, s: string): (r: (Splitter, nat))
    requires s != []
    ensures 1 <= r.1 <= |s|
  {
    if s[0] == '\\' then
      var n := Backslashes(s);
      if n < |s| && s[n] == '"' then
        if n % 2 == 1 then (Emit(st, Text.Repeat('\\', n / 2) + "\""), n + 1)
        else (Emit(st, Text.Repeat('\\', n / 2)), n)
      else (Emit(st, Text.Repeat('\\', n)), n)
    else if s[0] == '"' then
      if st.quoted && |s| >= 2 && s[1] == '"' then (Emit(st, "\""), 2)
      else (st.(quoted := !st.quoted, inArg := true), 1)
    else if IsBlank(s[0]) && !st.quoted then
      (if st.inArg then Splitter(st.args + [st.cur], "", false, false) else st, 1)
    else (Emit(st, [s[0]]), 1)
  }

  function Feed(st: Splitter, s: string): Splitter
    decreases |s|
  {
    if s == [] then st
    else
      var (st', k) := Step(st, s);
      Feed(st', s[k..])
  }

  /** The arguments a command line is split into. */
  function Split(line: string): seq<string> {
    var st := Feed(Start([]), line);
    if st.inArg then st.args + [st.cur] else st.args
  }

  /** The splitter never looks back: arguments finished before are carried
      along untouched. */
  lemma {:induction false} FeedFrame(st: Splitter, s: string, before: seq<string>)
    ensures Feed(st.(args := before + st.args), s) == Feed(st, s).(args := before + Feed(st, s).args)
    decreases |s|
  {
    if s != [] {
      var st1 := st.(args := before + st.args);
      var (t, k) := Step(st, s);
      assert Step(st1, s) == (t.(args := before + t.args), k) by {
        assert before + st.args + [st.cur] == before + (st.args + [st.cur]);
      }
      FeedFrame(t, s[k..], before);
    }
  }

  /** A step on `a` needs no look beyond `a` when `b` cannot continue a
      backslash run or a quote, or when `a` ends in neither. */
  predicate Separable(a: string, b: string) {
    || a == [] || b == [] || (b[0] != '"' && b[0] != '\\')
    || (a != [] && a[|a| - 1] != '\\' && a[|a| - 1] != '"')
  }

  lemma {:induction false} BackslashesAppend(a: string, b: string)
    requires Backslashes(a) < |a| || b == [] || b[0] != '\\'
    ensures Backslashes(a + b) == Backslashes(a)
    decreases |a|
  {
    if a != [] && a[0] == '\\' {
      BackslashesAppend(a[1..], b);
      assert (a + b)[1..] == a[1..] + b;
    }
  }

  lemma StepAppend(st: Splitter, a: string, b: string)
    requires a != [] && Separable(a, b)
    ensures Step(st, a + b) == Step(st, a)
  {
    if a[0] == '\\' {
      BackslashesAppend(a, b);
    }
  }

  /** Splitting `a + b` is splitting `a`, then `b`, when they are
      separable. */
  lemma {:induction false} FeedAppend(st: Splitter, a: string, b: string)
    requires Separable(a, b)
    ensures Feed(st, a + b) == Feed(Feed(st, a), b)
    decreases |a|
  {
    if a == [] {
      assert a + b == b;
    } else {
      StepAppend(st, a, b);
      var (t, k) := Step(st, a);
      assert (a + b)[k..] == a[k..] + b;
      FeedAppend(t, a[k..], b);
    }
  }

  /** No blank, quote or backslash: such a string needs no escaping and is
      read back as one argument. */
  predicate IsWord(s: string) {
    forall i :: 0 <= i < |s| ==> !IsBlank(s[i]) && s[i] != '"' && s[i] != '\\'
  }

  /** A backslash before a quote stands for the quote. */
  lemma StepEscapedQuote(st: Splitter, rest: string)
    ensures Step(st, "\\\"" + rest) == (Emit(st, "\""), 2)
  {
    var s := "\\\"" + rest;
    assert s[1..][0] == '"';
    assert Backslashes(s) == 1;
    assert Text.Repeat('\\', 0) + "\"" == "\"";
  }

  /** One escaped character is read back as the character. */
  lemma StepEscapedChar(st: Splitter, c: char, rest: string)
    requires c != '\\' && (st.quoted || !IsBlank(c))
    ensures Feed(st, EscapeChar(c) + rest) == Feed(Emit(st, [c]), rest)
  {
    var s := EscapeChar(c) + rest;
    if c == '"' {
      StepEscapedQuote(st, rest);
      assert s[2..] == rest;
    } else {
      assert Step(st, s) == (Emit(st, [c]), 1);
      assert s[1..] == rest;
    }
  }

  lemma EscapeCons(v: string, rest: string)
    requires v != []
    ensures EscapeQuotes(v) + rest == EscapeChar(v[0]) + (EscapeQuotes(v[1..]) + rest)
  {
  }

  /** An escaped value without backslashes is read back character by
      character; its blanks count as text only inside quotes. The splitter
      never looks past the escaped text. */
  lemma {:induction false} FeedEscaped(st: Splitter, v: string, rest: string)
    requires forall i :: 0 <= i < |v| ==> v[i] != '\\' && (st.quoted || !IsBlank(v[i]))
    ensures Feed(st, EscapeQuotes(v) + rest) == Feed(if v == [] then st else Emit(st, v), rest)
    decreases |v|
  {
    if v != [] {
      var st1 := Emit(st, [v[0]]);
      var tail := EscapeQuotes(v[1..]) + rest;
      var after := if v[1..] == [] then st1 else Emit(st1, v[1..]);
      assert after == Emit(st, v) by {
        assert [v[0]] + v[1..] == v;
      }
      calc {
        Feed(st, EscapeQuotes(v) + rest);
      == { EscapeCons(v, rest); }
        Feed(st, EscapeChar(v[0]) + tail);
      == { StepEscapedChar(st, v[0], tail); }
        Feed(st1, tail);
      == { FeedEscaped(st1, v[1..], rest); }
        Feed(after, rest);
      }
    } else {
      assert EscapeQuotes(v) + rest == rest;
    }
  }

  /** From a fresh start the token `t` is read back as the single argument
      `a`, left open for a following blank to close. */
  predicate ReadsAs(t: string, a: string) {
    Feed(Start([]), t) == Splitter([], a, true, false)
  }

  lemma {:induction false} EscapeNoQuote(s: string)
    requires forall i :: 0 <= i < |s| ==> s[i] != '"'
    ensures EscapeQuotes(s) == s
    decreases |s|
  {
    if s != [] {
      EscapeNoQuote(s[1..]);
      assert [s[0]] + s[1..] == s;
    }
  }

  /** An escaped value with neither blanks nor backslashes is read back as
      itself, its quotes included; a word needs no escaping at all. */
  lemma EscapedReadsAs(v: string)
    requires v != [] && forall i :: 0 <= i < |v| ==> v[i] != '\\' && !IsBlank(v[i])
    ensures ReadsAs(Escape(v, false), v)
    ensures IsWord(v) ==> Escape(v, false) == v
  {
    FeedEscaped(Start([]), v, []);
    assert EscapeQuotes(v) + [] == EscapeQuotes(v);
    if IsWord(v) {
      EscapeNoQuote(v);
    }
  }

  /** A quoted, escaped value without backslashes is read back as itself,
      blanks and quotes included. */
  lemma QuotedReadsAs(v: string)
    requires forall i :: 0 <= i < |v| ==> v[i] != '\\'
    ensures ReadsAs(Escape(v, true), v)
  {
    var s := Escape(v, true);
    var open := Splitter([], "", true, true);
    assert s == "\"" + (EscapeQuotes(v) + "\"");
    assert Step(Start([]), s) == (open, 1);
    assert s[1..] == EscapeQuotes(v) + "\"";
    FeedEscaped(open, v, "\"");
    var inside := Splitter([], v, true, true);
    assert (if v == [] then open else Emit(open, v)) == inside;
    assert Step(inside, "\"") == (Splitter([], v, true, false), 1);
  }

  /** A token read from any finished arguments. */
  lemma FeedToken(args: seq<string>, t: string, a: string)
    requires ReadsAs(t, a)
    ensures Feed(Start(args), t) == Splitter(args, a, true, false)
  {
    FeedFrame(Start([]), t, args);
    assert Start([]).(args := args + []) == Start(args);
  }

  /** A blank outside quotes closes the argument being built. */
  lemma FeedBlank(args: seq<string>, a: string, rest: string)
    ensures Feed(Splitter(args, a, true, false), " " + rest) == Feed(Start(args + [a]), rest)
  {
    var s := " " + rest;
    assert Step(Splitter(args, a, true, false), s) == (Start(args + [a]), 1);
    assert s[1..] == rest;
  }

  /** A token of a command line: a fixed word, read back as itself, or a
      value's text together with the argument it is read back as. */
  datatype Token = Word(word: string) | Value(text: string, arg: string)

  function TextOf(k: Token): string {
    if k.Word? then k.word else k.text
  }

  function ArgOf(k: Token): string {
    if k.Word? then k.word else k.arg
  }

  /** The token's text really is read back as its argument. */
  predicate Sound(k: Token) {
    if k.Word? then k.word != [] && IsWord(k.word) else ReadsAs(k.text, k.arg)
  }

  function Texts(ks: seq<Token>): (r: seq<string>)
    ensures |r| == |ks| && forall i :: 0 <= i < |ks| ==> r[i] == TextOf(ks[i])
  {
    seq(|ks|, i requires 0 <= i < |ks| => TextOf(ks[i]))
  }

  function Args(ks: seq<Token>): (r: seq<string>)
    ensures |r| == |ks| && forall i :: 0 <= i < |ks| ==> r[i] == ArgOf(ks[i])
  {
    seq(|ks|, i requires 0 <= i < |ks| => ArgOf(ks[i]))
  }

  /** A word is read back as itself. */
  lemma WordReadsAs(w: string)
    requires w != [] && IsWord(w)
    ensures ReadsAs(w, w)
  {
    EscapedReadsAs(w);
  }

  lemma SoundReads(k: Token)
    requires Sound(k)
    ensures ReadsAs(TextOf(k), ArgOf(k))
  {
    if k.Word? {
      WordReadsAs(k.word);
    }
  }

  lemma TokensTail(ks: seq<Token>)
    requires |ks| >= 2
    ensures Texts(ks)[1..] == Texts(ks[1..])
    ensures Args(ks)[..|ks| - 1] == [ArgOf(ks[0])] + Args(ks[1..])[..|ks| - 2]
  {
  }

  /** Sound tokens joined by blanks are read back as their arguments, in
      order. */
  lemma {:induction false} SplitJoin(ks: seq<Token>, args: seq<string>)
    requires |ks| >= 1 && AllSound(ks)
    ensures Feed(Start(args), JoinSpace(Texts(ks))) == Splitter(args + Args(ks)[..|ks| - 1], ArgOf(ks[|ks| - 1]), true, false)
    decreases |ks|
  {
    if |ks| == 1 {
      SplitJoinOne(ks[0], args);
      assert ks == [ks[0]];
    } else {
      SplitJoin(ks[1..], args + [ArgOf(ks[0])]);
      SplitJoinStep(ks, args);
    }
  }

  /** Every token of the list is sound, stated head first. */
  predicate AllSound(ks: seq<Token>)
    decreases |ks|
  {
    ks == [] || (Sound(ks[0]) && AllSound(ks[1..]))
  }

  lemma {:induction false} AllSoundFrom(ks: seq<Token>)
    requires forall i :: 0 <= i < |ks| ==> Sound(ks[i])
    ensures AllSound(ks)
    decreases |ks|
  {
    if ks != [] {
      assert forall i :: 0 <= i < |ks| - 1 ==> ks[1..][i] == ks[i + 1];
      AllSoundFrom(ks[1..]);
    }
  }

  /** The base case: one sound token is read back as its argument. */
  lemma SplitJoinOne(k: Token, args: seq<string>)
    requires Sound(k)
    ensures Feed(Start(args), JoinSpace(Texts([k]))) == Splitter(args + Args([k])[..0], ArgOf(k), true, false)
  {
    SoundReads(k);
    FeedToken(args, TextOf(k), ArgOf(k));
    assert args + Args([k])[..0] == args;
    assert Texts([k]) == [TextOf(k)];
  }

  /** Reading a sound token and the blank after it finishes its argument. */
  lemma FeedTokenBlank(args: seq<string>, k: Token, rest: string)
    requires Sound(k)
    ensures Feed(Start(args), TextOf(k) + (" " + rest)) == Feed(Start(args + [ArgOf(k)]), rest)
  {
    SoundReads(k);
    FeedToken(args, TextOf(k), ArgOf(k));
    FeedAppend(Start(args), TextOf(k), " " + rest);
    FeedBlank(args, ArgOf(k), rest);
  }

  /** Blank-joined texts of at least two tokens: the first text, a blank and
      the rest. */
  lemma JoinTexts(ks: seq<Token>)
    requires |ks| >= 2
    ensures JoinSpace(Texts(ks)) == TextOf(ks[0]) + (" " + JoinSpace(Texts(ks[1..])))
  {
    var ts := Texts(ks);
    assert ts[1..] == Texts(ks[1..]);
    assert JoinSpace(ts) == ts[0] + (" " + JoinSpace(ts[1..]));
  }

  /** The inductive step: reading the first token and its blank leaves the
      rest to be read with one more finished argument. */
  lemma SplitJoinStep(ks: seq<Token>, args: seq<string>)
    requires |ks| >= 2 && Sound(ks[0])
    requires Feed(Start(args + [ArgOf(ks[0])]), JoinSpace(Texts(ks[1..])))
          == Splitter(args + [ArgOf(ks[0])] + Args(ks[1..])[..|ks| - 2], ArgOf(ks[|ks| - 1]), true, false)
    ensures Feed(Start(args), JoinSpace(Texts(ks))) == Splitter(args + Args(ks)[..|ks| - 1], ArgOf(ks[|ks| - 1]), true, false)
  {
    JoinTexts(ks);
    FeedTokenBlank(args, ks[0], JoinSpace(Texts(ks[1..])));
    ArgsTail(ks, args);
  }

  lemma ArgsTail(ks: seq<Token>, args: seq<string>)
    requires |ks| >= 2
    ensures args + [ArgOf(ks[0])] + Args(ks[1..])[..|ks| - 2] == args + Args(ks)[..|ks| - 1]
  {
    TokensTail(ks);
  }

  /** A line that leaves an argument open splits into the finished
      arguments and the open one. */
  lemma SplitOfOpen(line: string, args: seq<string>, cur: string)
    requires Feed(Start([]), line) == Splitter(args, cur, true, false)
    ensures Split(line) == args + [cur]
  {
  }

  lemma LastSplit(a: seq<string>)
    requires |a| >= 1
    ensures [] + a[..|a| - 1] + [a[|a| - 1]] == a
  {
    assert [] + a[..|a| - 1] == a[..|a| - 1];
  }

  lemma SplitTokens(ks: seq<Token>)
    requires |ks| >= 1 && forall i :: 0 <= i < |ks| ==> Sound(ks[i])
    ensures Split(JoinSpace(Texts(ks))) == Args(ks)
  {
    var a := Args(ks);
    AllSoundFrom(ks);
    SplitJoin(ks, []);
    SplitOfOpen(JoinSpace(Texts(ks)), [] + a[..|ks| - 1], a[|ks| - 1]);
    LastSplit(a);
  }

  /** The command line's tokens around its three values. */
  function Command(input: Token, passphrase: Token, url: Token): seq<Token> {
    [Word("-re"), Word("-i"), input, Word("-c"), Word("copy"), Word("-f"), Word("mpegts"), Word("-flush_packets"),
     Word("0"), Word("-srt_passphrase"), passphrase, Word("-srt_pbkeylen"), Word("32"), url]
  }

  /** The short flags are words. */
  lemma FlagWordsSound()
    ensures Sound(Word("-re")) && Sound(Word("-i")) && Sound(Word("-c")) && Sound(Word("-f"))
  {
  }

  /** The option values are words. */
  lemma ValueWordsSound()
    ensures Sound(Word("copy")) && Sound(Word("mpegts")) && Sound(Word("0")) && Sound(Word("32"))
  {
  }

  /** The long flags are words. */
  lemma LongFlagsSound()
    ensures Sound(Word("-flush_packets")) && Sound(Word("-srt_passphrase")) && Sound(Word("-srt_pbkeylen"))
  {
  }

  /** The fixed words are words. */
  lemma FixedWordsSound()
    ensures Sound(Word("-re")) && Sound(Word("-i")) && Sound(Word("-c")) && Sound(Word("copy"))
    ensures Sound(Word("-f")) && Sound(Word("mpegts")) && Sound(Word("-flush_packets")) && Sound(Word("0"))
    ensures Sound(Word("-srt_passphrase")) && Sound(Word("-srt_pbkeylen")) && Sound(Word("32"))
  {
    FlagWordsSound();
    ValueWordsSound();
    LongFlagsSound();
  }

  lemma CommandTokens(a: Token, b: Token, c: Token)
    ensures Texts(Command(a, b, c)) == Intended(TextOf(a), TextOf(b), TextOf(c))
    ensures Args(Command(a, b, c)) == Intended(ArgOf(a), ArgOf(b), ArgOf(c))
  {
  }

  lemma CommandSound(a: Token, b: Token, c: Token)
    requires Sound(a) && Sound(b) && Sound(c)
    ensures forall i :: 0 <= i < 14 ==> Sound(Command(a, b, c)[i])
  {
    FixedWordsSound();
  }

  /** `Command` with the input cut at a blank into the words `w1` and `w2`. */
  function ShiftedCommand(w1: string, w2: string, passphrase: Token, url: Token): seq<Token> {
    [Word("-re"), Word("-i"), Word(w1), Word(w2), Word("-c"), Word("copy"), Word("-f"), Word("mpegts"),
     Word("-flush_packets"), Word("0"), Word("-srt_passphrase"), passphrase, Word("-srt_pbkeylen"), Word("32"), url]
  }

  lemma ShiftedTokens(w1: string, w2: string, b: Token, c: Token)
    ensures Texts(ShiftedCommand(w1, w2, b, c)) == Texts(Command(Word(w1 + " " + w2), b, c))[..2] + [w1, w2]
      + Texts(Command(Word(w1 + " " + w2), b, c))[3..]
    ensures var args := Args(ShiftedCommand(w1, w2, b, c)); |args| == 15 && args[2] == w1 && args[3] == w2
  {
    ShiftedTexts(w1, w2, b, c);
  }

  lemma ShiftedTexts(w1: string, w2: string, b: Token, c: Token)
    ensures Texts(ShiftedCommand(w1, w2, b, c)) == Texts(Command(Word(w1 + " " + w2), b, c))[..2] + [w1, w2]
      + Texts(Command(Word(w1 + " " + w2), b, c))[3..]
  {
    var t := Texts(ShiftedCommand(w1, w2, b, c));
    var u := Texts(Command(Word(w1 + " " + w2), b, c));
    assert t[..2] == u[..2];
    assert t[4..] == u[3..];
    assert t == t[..2] + [w1, w2] + t[4..];
  }

  lemma ShiftedSound(w1: string, w2: string, b: Token, c: Token)
    requires w1 != [] && IsWord(w1) && w2 != [] && IsWord(w2) && Sound(b) && Sound(c)
    ensures forall i :: 0 <= i < 15 ==> Sound(ShiftedCommand(w1, w2, b, c)[i])
  {
    FixedWordsSound();
  }

  // ---------------------------------------------------------------------------
  // The command line, as written and corrected

  /** A value the command line carries safely once quoted: no backslash. */
  predicate NoBackslash(s: string) {
    forall i :: 0 <= i < |s| ==> s[i] != '\\'
  }

  /** As written, an input URL with a blank inside is cut in two: for the
      channel "cam 1" ffmpeg reads ".../cam" as its input and "1" as a stray
      argument, and every later argument shifts by one. */
  lemma AsWrittenSplitsInput(session: SourceState.StreamSession, passphrase: string, w1: string, w2: string)
    requires InputUrl(session) == w1 + " " + w2 && w1 != [] && w2 != [] && IsWord(w1) && IsWord(w2)
    requires passphrase != [] && IsWord(passphrase) && NoBackslash(SrtUrl(session))
    ensures var args := Split(BuildArguments(session, passphrase));
      && |args| == 15
      && args[2] == w1 && args[3] == w2
      && args != Intended(InputUrl(session), passphrase, SrtUrl(session))
  {
    var url := Value(Escape(SrtUrl(session), true), SrtUrl(session));
    var pass := Word(passphrase);
    QuotedReadsAs(SrtUrl(session));
    AsWrittenLine(session, passphrase, w1, w2);
    ShiftedTokens(w1, w2, pass, url);
    ShiftedSound(w1, w2, pass, url);
    SplitTokens(ShiftedCommand(w1, w2, pass, url));
  }

  /** As written, the line for an input `w1 + " " + w2` is the line of the
      shifted command, whose input is two words. */
  lemma AsWrittenLine(session: SourceState.StreamSession, passphrase: string, w1: string, w2: string)
    requires InputUrl(session) == w1 + " " + w2 && IsWord(w1) && IsWord(w2) && IsWord(passphrase)
    ensures BuildArguments(session, passphrase)
      == JoinSpace(Texts(ShiftedCommand(w1, w2, Word(passphrase), Value(Escape(SrtUrl(session), true), SrtUrl(session)))))
  {
    var url := Value(Escape(SrtUrl(session), true), SrtUrl(session));
    var pass := Word(passphrase);
    var input := w1 + " " + w2;
    WordsEscape(w1, w2);
    EscapeNoQuote(passphrase);
    var line := Intended(input, passphrase, TextOf(url));
    assert BuildArguments(session, passphrase) == JoinSpace(line);
    CommandTokens(Word(input), pass, url);
    ShiftedTexts(w1, w2, pass, url);
    JoinSpaceSplit(line, 2, w1, w2);
  }

  /** Two words joined by a blank hold no quote, so escaping keeps them. */
  lemma WordsEscape(w1: string, w2: string)
    requires IsWord(w1) && IsWord(w2)
    ensures Escape(w1 + " " + w2, false) == w1 + " " + w2
  {
    var s := w1 + " " + w2;
    forall i | 0 <= i < |s|
      ensures s[i] != '"'
    {
      if i < |w1| {
        assert s[i] == w1[i];
      } else if i > |w1| {
        assert s[i] == w2[i - |w1| - 1];
      }
    }
    EscapeNoQuote(s);
  }

  /** With the input quoted, the command line is read back as exactly the
      intended arguments for any URLs without backslashes, blanks and
      quotes included, and any passphrase that is a single word. */
  lemma CorrectedSplitsAsIntended(session: SourceState.StreamSession, passphrase: string)
    requires NoBackslash(InputUrl(session)) && NoBackslash(SrtUrl(session))
    requires passphrase != [] && IsWord(passphrase)
    ensures Split(CorrectedArguments(session, passphrase)) == Intended(InputUrl(session), passphrase, SrtUrl(session))
  {
    var input := Value(Escape(InputUrl(session), true), InputUrl(session));
    var url := Value(Escape(SrtUrl(session), true), SrtUrl(session));
    var pass := Word(passphrase);
    QuotedReadsAs(InputUrl(session));
    QuotedReadsAs(SrtUrl(session));
    EscapedReadsAs(passphrase);
    CommandTokens(input, pass, url);
    CommandSound(input, pass, url);
    SplitTokens(Command(input, pass, url));
  }

  /** As written, the command line is read back as intended whenever the
      input URL has no blank: the defect needs a blank in the channel name
      or the RTMP URL. */
  lemma AsWrittenWithoutBlanks(session: SourceState.StreamSession, passphrase: string)
    requires InputUrl(session) != [] && NoBackslash(InputUrl(session)) && NoBackslash(SrtUrl(session))
    requires forall i :: 0 <= i < |InputUrl(session)| ==> !IsBlank(InputUrl(session)[i])
    requires passphrase != [] && IsWord(passphrase)
    ensures Split(BuildArguments(session, passphrase)) == Intended(InputUrl(session), passphrase, SrtUrl(session))
  {
    var input := Value(Escape(InputUrl(session), false), InputUrl(session));
    var url := Value(Escape(SrtUrl(session), true), SrtUrl(session));
    var pass := Word(passphrase);
    EscapedReadsAs(InputUrl(session));
    QuotedReadsAs(SrtUrl(session));
    EscapedReadsAs(passphrase);
    CommandTokens(input, pass, url);
    CommandSound(input, pass, url);
    SplitTokens(Command(input, pass, url));
  }

  /** A passphrase derived from key material is a single word: upper-case
      hex digits, never empty. */
  lemma PassphraseIsWord(key: seq<Encoding.byte>)
    ensures AesKeyMaterial.DerivePassphrase(key) != [] && IsWord(AesKeyMaterial.DerivePassphrase(key))
  {
  }
}
