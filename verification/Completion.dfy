// Tab completion: the candidates that match what was typed are folded to their longest common
// prefix, and that takes the place of the token under the cursor.
module Completion {
  import opened Options
  import opened Strings
  import opened ConsoleTokens

  // Matching ignores case; folding does not.

  function Lower(c: char): char
  {
    if 'A' <= c <= 'Z' then c - 'A' + 'a' else c
  }

  predicate SameLetters(a: string, b: string)
  {
    |a| == |b| && forall i :: 0 <= i < |a| ==> Lower(a[i]) == Lower(b[i])
  }

  predicate Matches(value: string, prefix: string)
  {
    |value| >= |prefix| && SameLetters(value[..|prefix|], prefix)
  }

  /** Two characters match if they are the same, or one letter in both cases. */
  lemma MatchesMeans(value: string, prefix: string)
    ensures Matches(value, prefix) <==> |prefix| <= |value| && forall i :: 0 <= i < |prefix| ==>
      var a, b := value[i] as int, prefix[i] as int;
      a == b || (a == b + 32 && 65 <= b <= 90) || (b == a + 32 && 65 <= a <= 90)
  {
  }

  datatype Offer = Offer(value: string, directory: bool)

  function Matching(prefix: string, offers: seq<Offer>): (r: seq<Offer>)
    ensures |r| <= |offers|
    ensures forall o :: o in r <==> o in offers && Matches(o.value, prefix)
  {
    if offers == [] then []
    else Matching(prefix, offers[..|offers| - 1]) +
         if Matches(offers[|offers| - 1].value, prefix) then [offers[|offers| - 1]] else []
  }

  function Agreement(a: string, b: string): (n: nat)
    ensures n <= |a| && n <= |b| && a[..n] == b[..n]
    ensures n < |a| && n < |b| ==> a[n] != b[n]
  {
    if a == [] || b == [] || a[0] != b[0] then 0
    else
      var n := 1 + Agreement(a[1..], b[1..]);
      assert a[..n] == [a[0]] + a[1..][..n - 1] && b[..n] == [b[0]] + b[1..][..n - 1];
      n
  }

  function Common(offers: seq<Offer>): string
    requires offers != []
  {
    if |offers| == 1 then offers[0].value
    else
      var rest := Common(offers[..|offers| - 1]);
      rest[..Agreement(rest, offers[|offers| - 1].value)]
  }

  ghost predicate StartsAll(p: string, offers: seq<Offer>)
  {
    forall o :: o in offers ==> p <= o.value
  }

  lemma {:induction false} AgreementIsLongest(a: string, b: string, p: string)
    requires p <= a && p <= b
    ensures p <= a[..Agreement(a, b)]
    decreases |p|
  {
    if p != [] {
      assert p[0] == a[0] == b[0];
      AgreementIsLongest(a[1..], b[1..], p[1..]);
      assert p == [p[0]] + p[1..] && a == [a[0]] + a[1..];
    }
  }

  /** The fold is the longest common prefix, of whatever is folded. */
  lemma {:induction false} CommonIsLongest(offers: seq<Offer>, p: string)
    requires offers != []
    ensures StartsAll(Common(offers), offers)
    ensures StartsAll(p, offers) ==> p <= Common(offers)
    decreases |offers|
  {
    var n := |offers| - 1;
    if n > 0 {
      var first, last := offers[..n], offers[n];
      CommonIsLongest(first, p);
      assert offers == first + [last];
      if StartsAll(p, offers) {
        AgreementIsLongest(Common(first), last.value, p);
      }
    }
  }

  /** So the order of the candidates makes no difference. */
  lemma CommonInAnyOrder(a: seq<Offer>, b: seq<Offer>)
    requires a != [] && b != [] && forall o :: o in a <==> o in b
    ensures Common(a) == Common(b)
  {
    hide Common;
    CommonIsLongest(a, Common(b));
    CommonIsLongest(b, Common(a));
  }

  class Candidates {
    var prefix: string
    var common: string
    var count: nat
    var directory: bool

    /** The matches so far. */
    ghost var matched: seq<Offer>

    ghost predicate Valid()
      reads this
    {
      && count == |matched|
      && (matched == [] ==> common == "" && !directory)
      && (matched != [] ==> common == Common(matched) && directory == (|matched| == 1 && matched[0].directory))
    }

    constructor (prefix: string)
      ensures Valid() && this.prefix == prefix && matched == []
    {
      this.prefix := prefix;
      common, count, directory := "", 0, false;
      matched := [];
    }

    /** The 16-bit count must not wrap. */
    method Offered(value: string, isDirectory: bool)
      requires Valid() && count < 0xFFFF
      modifies this
      ensures Valid() && prefix == old(prefix)
      ensures matched == old(matched) + if Matches(value, prefix) then [Offer(value, isDirectory)] else []
    {
      hide Common;
      if !Matches(value, prefix) {
        return;
      }
      CommonMore(matched, Offer(value, isDirectory));
      if count == 0 {
        common, directory := value, isDirectory;
      } else {
        var keep := 0;
        while keep < |common| && keep < |value| && common[keep] == value[keep]
          invariant keep <= |common| && keep <= |value| && common[..keep] == value[..keep]
        {
          keep := keep + 1;
        }
        AgreementUnique(common, value, keep);
        common, directory := common[..keep], false;
      }
      matched := matched + [Offer(value, isDirectory)];
      count := count + 1;
    }
  }

  lemma CommonMore(offers: seq<Offer>, more: Offer)
    ensures Common(offers + [more]) ==
      if offers == [] then more.value else Common(offers)[..Agreement(Common(offers), more.value)]
  {
    assert (offers + [more])[..|offers|] == offers;
  }

  lemma {:induction false} AgreementUnique(a: string, b: string, n: nat)
    requires n <= |a| && n <= |b| && a[..n] == b[..n] && (n < |a| && n < |b| ==> a[n] != b[n])
    ensures Agreement(a, b) == n
    decreases n
  {
    if n > 0 {
      assert a[0] == a[..n][0] == b[..n][0] == b[0];
      assert a[1..][..n - 1] == a[..n][1..] && b[1..][..n - 1] == b[..n][1..];
      AgreementUnique(a[1..], b[1..], n - 1);
    }
  }

  // What is being completed.

  /** The replacement begins at `start`; `prefix` is what was typed of it, and `words` counts the
      tokens with the one being completed, in eight bits. */
  datatype Context = Context(start: nat, prefix: string, words: nat, previous: Option<Token>)

  /** A count that is kept in eight bits. */
  function Count8(n: nat): (r: nat)
    ensures r < 256 && (n < 256 ==> r == n)
  {
    n % 256
  }

  lemma CountOn(n: nat)
    ensures Count8(Count8(n) + 1) == Count8(n + 1)
  {
  }

  function Analysed(typed: string): (c: Context)
    ensures c.start <= |typed|
  {
    var tokens := Tokens(typed, 0);
    var n := |tokens|;
    if n == 0 || tokens[n - 1].end < |typed| then
      Context(|typed|, "", Count8(n + 1), if n == 0 then None else Some(tokens[n - 1]))
    else
      TokensInside(typed, 0);
      Context(tokens[n - 1].start, tokens[n - 1].text, Count8(n), if n == 1 then None else Some(tokens[n - 2]))
  }

  lemma {:induction false} TokensInside(line: string, pos: nat)
    requires pos <= |line|
    ensures forall t :: t in Tokens(line, pos) ==> pos <= t.start < t.end <= |line|
    decreases |line| - pos
  {
    hide Next;
    var t := Next(line, pos);
    if t.Some? {
      NextInside(line, pos);
      TokensInside(line, t.value.end);
    }
  }

  lemma NextInside(line: string, pos: nat)
    requires pos <= |line|
    ensures Next(line, pos).Some? ==> pos <= Next(line, pos).value.start < Next(line, pos).value.end <= |line|
  {
  }

  method Analyse(line: string, cursor: nat) returns (context: Context)
    requires cursor <= |line|
    ensures context == Analysed(line[..cursor])
  {
    hide Next, Tokens, Count8;
    var typed := line[..cursor];
    var tokenizer := new Tokenizer(typed);
    var previous, current, index := None, None, 0;
    ghost var count: nat := 0;
    ghost var tokens := Tokens(typed, 0);
    TokensNext(typed, 0);
    var token := tokenizer.NextToken();
    while token.Some?
      invariant tokenizer.line == typed && count <= |tokens| && (token.Some? <==> count < |tokens|)
      invariant index == Count8(count)
      invariant token.Some? ==>
        && token.value == tokens[count] && tokenizer.pos == token.value.end <= |typed|
        && tokens[count + 1..] == Tokens(typed, token.value.end)
      invariant current == if count == 0 then None else Some(tokens[count - 1])
      invariant previous == if count <= 1 then None else Some(tokens[count - 2])
      decreases |tokens| - count
    {
      previous, current := current, token;
      CountOn(count);
      index, count := Count8(index + 1), count + 1;
      TokensNext(typed, tokenizer.pos);
      token := tokenizer.NextToken();
      if token.Some? {
        assert tokens[count] == tokens[count..][0];
        assert tokens[count + 1..] == tokens[count..][1..];
      }
    }
    if current.None? || current.value.end < cursor {
      CountOn(count);
      return Context(cursor, "", Count8(index + 1), current);
    }
    return Context(current.value.start, current.value.text, index, previous);
  }

  lemma TokensNext(line: string, pos: nat)
    requires pos <= |line|
    ensures var next, tokens := Next(line, pos), Tokens(line, pos);
      if next.None? then tokens == []
      else && next.value.end <= |line| && tokens != [] && tokens[0] == next.value
           && tokens[1..] == Tokens(line, next.value.end)
  {
    hide Next;
    NextInside(line, pos);
  }

  // What is put in its place.

  function Render(value: string, directory: bool, finished: bool): string
  {
    var quote := ' ' in value;
    var out := (if quote then "\"" else "") + value;
    if !finished then out
    else if directory then out + "/"
    else out + (if quote then "\"" else "") + " "
  }

  /** What the rendering is to be read as: a directory gains its slash. */
  function Meant(value: string, directory: bool, finished: bool): string
  {
    if finished && directory then value + "/" else value
  }

  /** Values that come back unchanged. */
  predicate Plain(value: string)
  {
    if ' ' in value then '"' !in value else value == "" || !IsQuote(value[0])
  }

  /** The tokens that are over before `k`, where a token starts or the line ends. */
  ghost predicate Cut(line: string, pos: nat, k: nat)
    requires pos <= |line|
    decreases |line| - pos
  {
    match Next(line, pos)
    case None => k == |line|
    case Some(t) => t.start == k || (Over(line, t, k) && Cut(line, t.end, k))
  }

  function Before(line: string, pos: nat, k: nat): seq<Token>
    requires pos <= |line|
    decreases |line| - pos
  {
    match Next(line, pos)
    case None => []
    case Some(t) => if t.start >= k then [] else [t] + Before(line, t.end, k)
  }

  /** A line that is the same up to such a place reads the same up to there. */
  lemma {:induction false} ReadsOn(line: string, other: string, pos: nat, k: nat)
    requires pos <= k <= |line| && Cut(line, pos, k)
    requires k <= |other| && other[..k] == line[..k]
    ensures Tokens(other, pos) == Before(line, pos, k) + Tokens(other, k)
    decreases |line| - pos
  {
    hide Over, Next;
    var t := Next(line, pos);
    if t.Some? && t.value.start < k {
      SameToken(line, other, pos, k);
      OverBefore(line, t.value, k);
      ReadsOn(line, other, t.value.end, k);
    } else {
      OnlySpaces(line, pos, k);
      assert forall i :: pos <= i < k ==> other[i] == other[..k][i] == line[..k][i] == line[i];
      SameNext(other, pos, k);
    }
  }

  lemma OverBefore(line: string, t: Token, k: nat)
    requires Over(line, t, k)
    ensures t.start < t.end <= k
  {
  }

  lemma OnlySpaces(line: string, pos: nat, k: nat)
    requires pos <= k <= |line| && Cut(line, pos, k)
    requires Next(line, pos).Some? ==> Next(line, pos).value.start >= k
    ensures forall i :: pos <= i < k ==> line[i] == ' '
  {
  }

  lemma SameNext(line: string, pos: nat, k: nat)
    requires pos <= k <= |line| && forall i :: pos <= i < k ==> line[i] == ' '
    ensures Next(line, pos) == Next(line, k) && Tokens(line, pos) == Tokens(line, k)
  {
    SkipTo(line, pos, k);
  }

  /** The token being completed starts at such a place. */
  lemma {:induction false} AnalysedCut(typed: string, pos: nat)
    requires pos <= |typed|
    ensures var tokens := Tokens(typed, pos);
            var n := |tokens|;
            var starting := n == 0 || tokens[n - 1].end < |typed|;
            var k := if starting then |typed| else tokens[n - 1].start;
      && pos <= k && Cut(typed, pos, k)
      && Before(typed, pos, k) == if starting then tokens else tokens[..n - 1]
    decreases |typed| - pos
  {
    hide Next, Over;
    var next := Next(typed, pos);
    if next.Some? {
      var t := next.value;
      NextInside(typed, pos);
      AnalysedCut(typed, t.end);
      TokensInside(typed, t.end);
      var tokens := Tokens(typed, pos);
      var rest := Tokens(typed, t.end);
      assert tokens == [t] + rest;
      if rest != [] {
        OverByNext(typed, pos, if rest[|rest| - 1].end < |typed| then |typed| else rest[|rest| - 1].start);
        assert tokens[..|tokens| - 1] == [t] + rest[..|rest| - 1];
      } else if t.end < |typed| {
        OverByEnd(typed, pos);
      }
    }
  }

  lemma OverByEnd(line: string, pos: nat)
    requires pos <= |line| && Next(line, pos).Some? && Next(line, pos).value.end < |line|
    ensures Over(line, Next(line, pos).value, |line|)
  {
  }

  /** A token is over before any later one starts. */
  lemma OverByNext(line: string, pos: nat, k: nat)
    requires pos <= k <= |line| && Next(line, pos).Some?
    requires var t := Next(line, pos).value; Tokens(line, t.end) != [] && Tokens(line, t.end)[0].start <= k
    ensures Over(line, Next(line, pos).value, k)
  {
    hide Tokens;
    var t := Next(line, pos).value;
    TokensNext(line, t.end);
    var second := Next(line, t.end).value;
    assert line[second.start] != ' ';
  }

  lemma FindIn(line: string, from: nat, c: char, body: string, tail: string)
    requires from <= |line| && line[from..] == body + tail && c !in body
    ensures Find(line, from, c) == from + |body| + Find(tail, 0, c)
    ensures line[from..from + |body| + Find(tail, 0, c)] == body + tail[..Find(tail, 0, c)]
  {
    hide Find;
    var u, n, f := line[from..], |body|, Find(tail, 0, c);
    assert forall i :: 0 <= i < |u| ==> line[from + i] == u[i];
    assert line[from..from + n + f] == u[..n + f] == body + tail[..f];
    assert c !in tail[0..f] && tail[0..f] == tail[..f];
    assert f < |tail| ==> line[from + n + f] == u[n + f] == tail[f];
    FindUnique(line, from, c, from + n + f);
  }

  /** What follows a rendering on the line, from where the value itself is over. */
  function Tail(value: string, directory: bool, finished: bool, rest: string): string
  {
    if !finished || directory then rest else (if ' ' in value then "\"" else "") + " " + rest
  }

  /** What ends the token. */
  function Ending(value: string): char
  {
    if ' ' in value then '"' else ' '
  }

  /** The part of what follows that is read as part of the token. */
  function Taken(value: string, directory: bool, finished: bool, rest: string): string
  {
    var tail := Tail(value, directory, finished, rest);
    tail[..Find(tail, 0, Ending(value))]
  }

  /** Nothing does exactly when the token is closed, or nothing follows but its end. */
  predicate Ends(value: string, directory: bool, finished: bool, rest: string)
  {
    (finished && !directory) || rest == "" || rest[0] == Ending(value)
  }

  lemma TakenNothing(value: string, directory: bool, finished: bool, rest: string)
    ensures Taken(value, directory, finished, rest) == "" <==> Ends(value, directory, finished, rest)
  {
  }

  lemma RenderedTail(value: string, directory: bool, finished: bool, rest: string)
    ensures Render(value, directory, finished) + rest ==
      (if ' ' in value then "\"" else "") + Meant(value, directory, finished) + Tail(value, directory, finished, rest)
  {
  }

  lemma TailAlone(value: string, directory: bool, finished: bool)
    ensures Find(Tail(value, directory, finished, ""), 0, Ending(value)) == 0
    ensures Taken(value, directory, finished, "") == ""
  {
  }

  lemma ReadsNothing(line: string, k: nat)
    requires k <= |line| && forall i :: k <= i < |line| ==> line[i] == ' '
    ensures Tokens(line, k) == []
  {
    SkipUnique(line, k, |line|);
  }

  /** How a rendered value that quoting can carry is read, whatever follows on the line. */
  lemma Rendered(line: string, k: nat, value: string, directory: bool, finished: bool, rest: string)
    requires k <= |line| && line[k..] == Render(value, directory, finished) + rest
    requires Plain(value) && Meant(value, directory, finished) != ""
    ensures Next(line, k).Some?
    ensures var t, tail := Next(line, k).value, Tail(value, directory, finished, rest);
      && t.text == Meant(value, directory, finished) + Taken(value, directory, finished, rest)
      && t.start == k && t.quoted == (' ' in value)
      && t.end == (var end := |line| - |tail| + Find(tail, 0, Ending(value));
                   if ' ' in value && end < |line| then end + 1 else end)
  {
    hide Find, Tail, Render, Next;
    var meant, tail := Meant(value, directory, finished), Tail(value, directory, finished, rest);
    RenderedTail(value, directory, finished, rest);
    var u := line[k..];
    assert line[k] == u[0];
    if ' ' in value {
      assert '"' !in meant;
      assert line[k + 1..] == u[1..] == meant + tail;
      ReadsQuoted(line, k, meant, tail);
    } else {
      assert ' ' !in meant && u == meant + tail && line[k] == meant[0];
      ReadsBare(line, k, meant, tail);
    }
  }

  lemma ReadsQuoted(line: string, k: nat, body: string, tail: string)
    requires k < |line| && line[k] == '"' && line[k + 1..] == body + tail && '"' !in body
    ensures Next(line, k) == (var f := Find(tail, 0, '"'); var end := k + 1 + |body| + f;
      Some(Token(body + tail[..f], k, if end < |line| then end + 1 else end, true)))
  {
    hide Find, Skip;
    SkipUnique(line, k, k);
    FindIn(line, k + 1, '"', body, tail);
  }

  lemma ReadsBare(line: string, k: nat, body: string, tail: string)
    requires k < |line| && line[k] != ' ' && !IsQuote(line[k]) && line[k..] == body + tail && ' ' !in body
    ensures Next(line, k) == (var f := Find(tail, 0, ' ');
      Some(Token(body + tail[..f], k, k + |body| + f, false)))
  {
    hide Find, Skip;
    SkipUnique(line, k, k);
    FindIn(line, k, ' ', body, tail);
  }

  /** A value that quoting cannot carry never reads back as what was meant. */
  lemma OnlyPlainRendered(line: string, k: nat, value: string, directory: bool, finished: bool, rest: string)
    requires k <= |line| && line[k..] == Render(value, directory, finished) + rest && !Plain(value)
    ensures Next(line, k).Some? && Next(line, k).value.start == k
    ensures Next(line, k).value.text != Meant(value, directory, finished)
  {
    hide TokenAt;
    var u := line[k..];
    assert line[k] == u[0];
    SkipUnique(line, k, k);
    if ' ' in value {
      var i :| 0 <= i < |value| && value[i] == '"';
      assert line[k + 1 + i] == u[1 + i] == '"';
      QuoteInside(line, k, k + 1 + i);
    } else {
      QuoteTaken(line, k);
      assert Meant(value, directory, finished)[0] == line[k];
    }
  }

  lemma QuoteInside(line: string, k: nat, i: nat)
    requires k < i < |line| && IsQuote(line[k]) && line[i] == line[k]
    ensures |TokenAt(line, k).text| <= i - k - 1
  {
    FoundBy(line, k + 1, line[k], i);
  }

  lemma QuoteTaken(line: string, k: nat)
    requires k < |line| && IsQuote(line[k])
    ensures line[k] !in TokenAt(line, k).text
  {
  }

  /** A rendered value reads back as what was meant exactly if quoting can carry it and what follows
      does not run on. */
  lemma ReadsBack(line: string, k: nat, value: string, directory: bool, finished: bool, rest: string)
    requires k <= |line| && line[k..] == Render(value, directory, finished) + rest
    requires Meant(value, directory, finished) != ""
    ensures Next(line, k).Some? && Next(line, k).value.start == k
    ensures Next(line, k).value.text == Meant(value, directory, finished)
       <==> Plain(value) && Ends(value, directory, finished, rest)
  {
    hide Next, Taken, Ends, Render, Tail, Find;
    if Plain(value) {
      Rendered(line, k, value, directory, finished, rest);
      TakenNothing(value, directory, finished, rest);
      var t, meant := Next(line, k).value.text, Meant(value, directory, finished);
      assert t[|meant|..] == Taken(value, directory, finished, rest);
    } else {
      OnlyPlainRendered(line, k, value, directory, finished, rest);
    }
  }

  function Texts(tokens: seq<Token>): (r: seq<string>)
    ensures |r| == |tokens|
  {
    seq(|tokens|, i requires 0 <= i < |tokens| => tokens[i].text)
  }

  /** The end of a line reads the same words wherever it stands. */
  lemma {:induction false} SameWords(line: string, from: nat, rest: string, p: nat)
    requires from <= |line| && line[from..] == rest && p <= |rest|
    ensures Texts(Tokens(line, from + p)) == Texts(Tokens(rest, p))
    decreases |rest| - p
  {
    hide Next;
    NextMoved(line, from, rest, p);
    NextInside(rest, p);
    var t := Next(rest, p);
    if t.Some? {
      SameWords(line, from, rest, t.value.end);
      assert Texts(Tokens(rest, p)) == [t.value.text] + Texts(Tokens(rest, t.value.end));
      assert Texts(Tokens(line, from + p)) == [t.value.text] + Texts(Tokens(line, from + t.value.end));
    }
  }

  lemma NextMoved(line: string, from: nat, rest: string, p: nat)
    requires from <= |line| && line[from..] == rest && p <= |rest|
    ensures Next(line, from + p) == match Next(rest, p)
      case None => None
      case Some(t) => Some(Token(t.text, from + t.start, from + t.end, t.quoted))
  {
    hide Skip, Find, TokenAt;
    var k := Skip(rest, p);
    assert forall i :: 0 <= i < |rest| ==> line[from + i] == rest[i];
    assert forall i :: from + p <= i < from + k ==> line[i] == rest[i - from];
    SkipUnique(line, from + p, from + k);
    if k < |rest| {
      TokenMoved(line, from, rest, k);
    }
  }

  lemma TokenMoved(line: string, from: nat, rest: string, k: nat)
    requires from <= |line| && line[from..] == rest && k < |rest| && rest[k] != ' '
    ensures line[from + k] == rest[k]
    ensures var t := TokenAt(rest, k);
      TokenAt(line, from + k) == Token(t.text, from + t.start, from + t.end, t.quoted)
  {
    hide Find;
    if IsQuote(rest[k]) {
      FindMoved(line, from, rest, k + 1, rest[k]);
    } else {
      FindMoved(line, from, rest, k, ' ');
    }
  }

  lemma FindMoved(line: string, from: nat, rest: string, p: nat, c: char)
    requires from <= |line| && line[from..] == rest && p <= |rest|
    ensures Find(line, from + p, c) == from + Find(rest, p, c)
    ensures line[from + p..from + Find(rest, p, c)] == rest[p..Find(rest, p, c)]
  {
    hide Find;
    var f := Find(rest, p, c);
    assert forall i :: 0 <= i < |rest| ==> line[from + i] == line[from..][i] == rest[i];
    assert line[from + p..from + f] == rest[p..f];
    FindUnique(line, from + p, c, from + f);
  }

  /** After a value that is finished the words of the rest are read as they were. */
  lemma RestReads(line: string, k: nat, value: string, rest: string)
    requires k <= |line| && line[k..] == Render(value, false, true) + rest && Plain(value)
    ensures Texts(Tokens(line, k)) == (if value == "" then [] else [value]) + Texts(Tokens(rest, 0))
  {
    hide Next, Tokens, Find, Plain;
    var from := |line| - |rest|;
    RestStands(line, k, value, rest);
    SameWords(line, from, rest, 0);
    if value == "" {
      SameNext(line, k, from);
    } else {
      ValueStands(line, k, value, rest);
      var t := Next(line, k).value;
      SameNext(line, t.end, from);
      FirstText(t, Tokens(line, from));
    }
  }

  lemma RestStands(line: string, k: nat, value: string, rest: string)
    requires k <= |line| && line[k..] == Render(value, false, true) + rest
    ensures var from := |line| - |rest|;
      k < from && line[from..] == rest && line[from - 1] == ' ' && (value == "" ==> from == k + 1)
  {
    var from, u := |line| - |rest|, line[k..];
    assert |u| == |Render(value, false, true)| + |rest|;
    assert forall i :: k <= i < |line| ==> line[i] == u[i - k];
    assert line[from..] == u[from - k..] == rest;
  }

  /** A value that is finished is one token, over just before the space. */
  lemma ValueStands(line: string, k: nat, value: string, rest: string)
    requires k <= |line| && line[k..] == Render(value, false, true) + rest && Plain(value) && value != ""
    ensures Next(line, k).Some?
    ensures var t := Next(line, k).value;
      t.text == value && t.end == |line| - |rest| - 1 && Tokens(line, k) == [t] + Tokens(line, t.end)
  {
    hide Next, Tokens, Find, Plain;
    Rendered(line, k, value, false, true, rest);
    FindUnique(Tail(value, false, true, rest), 0, Ending(value), 0);
    assert Taken(value, false, true, rest) == "";
    TokensNext(line, k);
    var t := Next(line, k).value;
    assert t.text == value + "";
    assert Tokens(line, k) == [Tokens(line, k)[0]] + Tokens(line, k)[1..];
  }

  lemma FirstText(t: Token, rest: seq<Token>)
    ensures Texts([t] + rest) == [t.text] + Texts(rest)
  {
  }

  /** What was open and stood before the rest of a word runs on into it. */
  lemma RunsOn()
    ensures var line := "cat " + Render("reads", true, true) + "x";
      |Tokens(line, 0)| == 2 && Tokens(line, 0)[1].text == "reads/x"
  {
    var line := "cat " + Render("reads", true, true) + "x";
    assert line == "cat reads/x";
    SkipUnique(line, 0, 0);
    FindUnique(line, 0, ' ', 3);
    SkipUnique(line, 3, 4);
    assert ' ' !in line[4..11];
    FindUnique(line, 4, ' ', 11);
    SkipUnique(line, 11, 11);
    assert Next(line, 0).value.end == 3;
    assert Next(line, 3).value == Token("reads/x", 4, 11, false);
    assert Tokens(line, 11) == [];
    assert Tokens(line, 3) == [Next(line, 3).value];
  }

  // Paths.

  function LastCut(prefix: string): (k: int)
    ensures -1 <= k < |prefix|
    ensures k >= 0 ==> prefix[k] == '/' || prefix[k] == ':'
    ensures forall i :: k < i < |prefix| ==> prefix[i] != '/' && prefix[i] != ':'
  {
    if prefix == "" then -1
    else
      var n := |prefix| - 1;
      if prefix[n] == '/' || prefix[n] == ':' then n else LastCut(prefix[..n])
  }

  /** The path up to the name that is being typed. */
  function Stem(prefix: string): string
  {
    prefix[..LastCut(prefix) + 1]
  }

  function Leaf(prefix: string): string
  {
    prefix[LastCut(prefix) + 1..]
  }

  /** An entry of a directory. */
  datatype Entry = Entry(name: string, directory: bool)

  /** The directory to open, and what is offered of its entries. */
  method EnumeratePaths(prefix: string, volume: map<string, seq<Entry>>) returns (directory: string, offers: seq<Offer>)
    ensures directory == if LastCut(prefix) < 0 then "/" else Stem(prefix)
    ensures directory !in volume ==> offers == []
    ensures directory in volume ==> forall o :: o in offers <==>
      exists e :: e in volume[directory] && e.name != "" && Matches(e.name, Leaf(prefix))
                  && o == Offer(Stem(prefix) + e.name, e.directory)
    ensures forall o :: o in offers ==> Matches(o.value, prefix)
  {
    directory := if LastCut(prefix) < 0 then "/" else Stem(prefix);
    offers := [];
    if directory in volume {
      var entries := volume[directory];
      for n := 0 to |entries|
        invariant forall o :: o in offers ==> Matches(o.value, prefix)
        invariant forall o :: o in offers <==>
          exists e :: e in entries[..n] && e.name != "" && Matches(e.name, Leaf(prefix))
                      && o == Offer(Stem(prefix) + e.name, e.directory)
      {
        var e := entries[n];
        assert entries[..n + 1] == entries[..n] + [e];
        if e.name != "" && Matches(e.name, Leaf(prefix)) {
          LeafMatches(prefix, e.name);
          offers := offers + [Offer(Stem(prefix) + e.name, e.directory)];
        }
      }
      assert entries[..|entries|] == entries;
    }
  }

  /** Matching the name against what was typed of it is matching the whole path. */
  lemma LeafMatches(prefix: string, name: string)
    ensures Matches(name, Leaf(prefix)) <==> Matches(Stem(prefix) + name, prefix)
  {
    hide LastCut, Lower;
    var stem, leaf := Stem(prefix), Leaf(prefix);
    assert prefix == stem + leaf;
    if |name| >= |leaf| {
      SameAfter(stem, name[..|leaf|], leaf);
      assert (stem + name)[..|prefix|] == stem + name[..|leaf|];
    }
  }

  lemma SameAfter(stem: string, a: string, b: string)
    requires |a| == |b|
    ensures SameLetters(stem + a, stem + b) <==> SameLetters(a, b)
  {
    if SameLetters(stem + a, stem + b) {
      forall i | 0 <= i < |a|
        ensures Lower(a[i]) == Lower(b[i])
      {
        assert (stem + a)[|stem| + i] == a[i] && (stem + b)[|stem| + i] == b[i];
      }
    }
  }

  // The whole of it.

  /** What a press of Tab puts in the place of the token, if anything. */
  function Replacement(prefix: string, offers: seq<Offer>): Option<string>
  {
    var matched := Matching(prefix, offers);
    if matched == [] then None
    else if |matched| == 1 then Some(Render(Common(matched), matched[0].directory, true))
    else if Common(matched) != prefix then Some(Render(Common(matched), false, false))
    else None
  }

  /** The line after a press of Tab that has something to put in. */
  function Completed(typed: string, offers: seq<Offer>, rest: string): string
    requires Replacement(Analysed(typed).prefix, offers).Some?
  {
    var context := Analysed(typed);
    typed[..context.start] + Replacement(context.prefix, offers).value + rest
  }

  /** The tokens before the one under the cursor stay as they are, and that one reads as the longest
      common prefix of the candidates that match, a single directory with its slash, exactly if
      quoting can carry it and the line does not run on from it. */
  lemma CompletionReadsBack(typed: string, offers: seq<Offer>, rest: string)
    requires Replacement(Analysed(typed).prefix, offers).Some?
    ensures var context := Analysed(typed);
      var matched := Matching(context.prefix, offers);
      var value, single := Common(matched), |matched| == 1;
      var directory := single && matched[0].directory;
      var meant := Meant(value, directory, single);
      var line := Completed(typed, offers, rest);
      var earlier := Before(typed, 0, context.start);
      var n := |earlier|;
      && context.words == Count8(n + 1) && n <= |Tokens(typed, 0)| && earlier == Tokens(typed, 0)[..n]
      && n <= |Tokens(line, 0)| && Tokens(line, 0)[..n] == earlier
      && Tokens(line, 0)[n..] == Tokens(line, context.start)
      && (meant != "" ==>
            && n < |Tokens(line, 0)| && Tokens(line, 0)[n].start == context.start
            && (Tokens(line, 0)[n].text == meant <==> Plain(value) && Ends(value, directory, single, rest)))
  {
    hide Tokens, Before, Cut, Render, Meant, Common, Matching, Plain, Next, Ends;
    var context := Analysed(typed);
    var matched := Matching(context.prefix, offers);
    var single := |matched| == 1;
    var directory := single && matched[0].directory;
    var text := Render(Common(matched), directory, single);
    var line := Completed(typed, offers, rest);
    AnalysedCut(typed, 0);
    assert line[..context.start] == typed[..context.start] && line[context.start..] == text + rest;
    ReadsOn(typed, line, 0, context.start);
    if Meant(Common(matched), directory, single) != "" {
      ReadsBack(line, context.start, Common(matched), directory, single, rest);
      TokensNext(line, context.start);
    }
  }

  /** What replaces the word is at least as long as the word if and only if all candidates that match
      agree, case and all, on as many letters: matching ignores case, but folding does not. */
  lemma WordKept(prefix: string, offers: seq<Offer>)
    requires Matching(prefix, offers) != []
    ensures |Common(Matching(prefix, offers))| >= |prefix|
       <==> forall o, p :: o in offers && p in offers && Matches(o.value, prefix) && Matches(p.value, prefix) ==>
              o.value[..|prefix|] == p.value[..|prefix|]
  {
    hide Common, SameLetters, Lower;
    var matched, n := Matching(prefix, offers), |prefix|;
    CommonIsLongest(matched, matched[0].value[..n]);
    var common := Common(matched);
    if |common| >= n {
      assert forall o :: o in matched ==> o.value[..n] == common[..n];
    }
  }

  /** Where two candidates differ in case only, what was typed of them is lost. */
  lemma WordLost()
    ensures Replacement("a", [Offer("Abc", false), Offer("abd", false)]) == Some("")
  {
    hide Matching;
    var a, b := Offer("Abc", false), Offer("abd", false);
    var offers := [a, b];
    MatchingNone("a", offers);
    MatchingMore("a", offers, 0);
    MatchingMore("a", offers, 1);
    assert "Abc"[..1] == "A" && "abd"[..1] == "a";
    assert offers[..2] == offers;
    assert Matching("a", offers) == [a, b];
    CommonMore([a], b);
    assert [a] + [b] == [a, b] && Common([a]) == "Abc" && Agreement("Abc", "abd") == 0;
    assert Common([a, b]) == "";
    assert Render("", false, false) == "";
  }

  /** Once the word has grown to the point to which the candidates agree, a press changes nothing. */
  lemma NothingMore(prefix: string, offers: seq<Offer>)
    requires |Matching(prefix, offers)| > 1 && |Common(Matching(prefix, offers))| >= |prefix|
    ensures Replacement(Common(Matching(prefix, offers)), offers) == None
  {
    hide Common, SameLetters, Lower;
    var common := Common(Matching(prefix, offers));
    forall o | o in offers
      ensures Matches(o.value, prefix) <==> Matches(o.value, common)
    {
      CommonMatches(prefix, offers, o.value);
    }
    SameMatching(prefix, common, offers);
  }

  lemma CommonMatches(prefix: string, offers: seq<Offer>, value: string)
    requires Matching(prefix, offers) != [] && |Common(Matching(prefix, offers))| >= |prefix|
    requires exists o :: o in offers && o.value == value
    ensures Matches(value, prefix) <==> Matches(value, Common(Matching(prefix, offers)))
  {
    hide Common, Lower;
    var matched := Matching(prefix, offers);
    var common := Common(matched);
    CommonIsLongest(matched, "");
    assert common <= matched[0].value && Matches(matched[0].value, prefix);
    var n := |prefix|;
    assert matched[0].value[..n] == common[..n];
    if Matches(value, common) {
      forall i | 0 <= i < n
        ensures Lower(value[i]) == Lower(prefix[i])
      {
        assert value[..|common|][i] == value[i] && common[..n][i] == common[i];
      }
    }
  }

  lemma {:induction false} SameMatching(p: string, q: string, offers: seq<Offer>)
    requires forall o :: o in offers ==> (Matches(o.value, p) <==> Matches(o.value, q))
    ensures Matching(p, offers) == Matching(q, offers)
  {
    hide Matches;
    if offers != [] {
      assert offers[|offers| - 1] in offers;
      SameMatching(p, q, offers[..|offers| - 1]);
    }
  }

  /** After a single candidate a new word is begun, and a name that looks like an option is what
      stands before it; inside a single directory, or at the point to which the candidates agree,
      the next press goes on from where this one stopped. */
  lemma PressAgain(typed: string, offers: seq<Offer>)
    requires Replacement(Analysed(typed).prefix, offers).Some?
    requires Plain(Common(Matching(Analysed(typed).prefix, offers)))
    requires Common(Matching(Analysed(typed).prefix, offers)) != ""
    ensures var context := Analysed(typed);
      var matched := Matching(context.prefix, offers);
      var value, single := Common(matched), |matched| == 1;
      var line := Completed(typed, offers, "");
      var again := Analysed(line);
      if single && !matched[0].directory
      then && again.start == |line| && again.prefix == "" && again.words == Count8(context.words + 1)
           && again.previous.Some? && again.previous.value.text == value
           && (again.previous.value.IsOption() <==> IsOptionName(value) && ' ' !in value)
      else && again.start == context.start && again.prefix == Meant(value, single, single)
           && again.words == context.words
  {
    hide Tokens, Before, Cut, Common, Matching, Plain, Next, Find, Token.IsOption, IsOptionName, Count8;
    var context := Analysed(typed);
    CountOn(|Before(typed, 0, context.start)| + 1);
    var matched := Matching(context.prefix, offers);
    var value, single := Common(matched), |matched| == 1;
    var directory := single && matched[0].directory;
    var line := Completed(typed, offers, "");
    CompletionReadsBack(typed, offers, "");
    assert line[context.start..] == Render(value, directory, single) + "";
    AloneAtEnd(line, context.start, value, directory, single);
    var t := Next(line, context.start).value;
    OptionRead(t);
    assert Tokens(line, 0) == Before(typed, 0, context.start) + [t];
  }

  lemma OptionRead(t: Token)
    ensures t.IsOption() <==> IsOptionName(t.text) && !t.quoted
  {
  }

  /** What was put in at the end of a line is its last token. */
  lemma AloneAtEnd(line: string, k: nat, value: string, directory: bool, finished: bool)
    requires k <= |line| && line[k..] == Render(value, directory, finished) + "" && Plain(value) && value != ""
    ensures Next(line, k).Some? && Tokens(line, k) == [Next(line, k).value]
    ensures var t := Next(line, k).value;
      && t.text == Meant(value, directory, finished) && t.start == k && t.quoted == (' ' in value)
      && t.end == if finished && !directory then |line| - 1 else |line|
  {
    hide Tokens, Plain, Next, Find;
    Rendered(line, k, value, directory, finished, "");
    TokensNext(line, k);
    var t := Next(line, k).value;
    TailAlone(value, directory, finished);
    assert finished && !directory ==> line[|line| - 1] == line[k..][|line| - 1 - k] == ' ';
    ReadsNothing(line, t.end);
  }

  /** The line editor's part in it. */
  class Editor {
    var line: string
    var cursor: nat

    constructor (line: string, cursor: nat)
      ensures this.line == line && this.cursor == cursor
    {
      this.line, this.cursor := line, cursor;
    }

    method Replace(start: nat, end: nat, text: string)
      modifies this
      ensures var s := if start > |old(line)| then |old(line)| else start;
              var e := if end > |old(line)| then |old(line)| else end;
              var rest := if e < s then s else e;
              line == old(line[..s]) + text + old(line[rest..]) && cursor == s + |text|
    {
      var s := if start > |line| then |line| else start;
      var e := if end > |line| then |line| else end;
      if e < s {
        e := s;
      }
      line := line[..s] + text + line[e..];
      cursor := s + |text|;
    }

    /** One press of Tab; `offers` are what the source for this context enumerates. */
    method Complete(offers: seq<Offer>)
      requires cursor <= |line| && |offers| <= 0xFFFF
      modifies this
      ensures var context := Analysed(old(line[..cursor]));
        match Replacement(context.prefix, offers)
        case None => line == old(line) && cursor == old(cursor)
        case Some(text) =>
          && line == old(line[..context.start]) + text + old(line[cursor..])
          && cursor == context.start + |text|
    {
      hide Tokens, Next, Render, Common, Matching;
      var context := Analyse(line, cursor);
      var sink := new Candidates(context.prefix);
      MatchingNone(context.prefix, offers);
      for n := 0 to |offers|
        invariant sink.Valid() && sink.prefix == context.prefix && fresh(sink)
        invariant line == old(line) && cursor == old(cursor)
        invariant sink.matched == Matching(context.prefix, offers[..n]) && sink.count <= n
      {
        MatchingMore(context.prefix, offers, n);
        sink.Offered(offers[n].value, offers[n].directory);
      }
      assert offers[..|offers|] == offers;
      if sink.count == 0 {
        return;
      }
      if sink.count == 1 {
        Replace(context.start, cursor, Render(sink.common, sink.directory, true));
        return;
      }
      if sink.common != context.prefix {
        Replace(context.start, cursor, Render(sink.common, false, false));
      }
    }
  }

  lemma MatchingNone(prefix: string, offers: seq<Offer>)
    ensures Matching(prefix, offers[..0]) == []
  {
  }

  lemma MatchingMore(prefix: string, offers: seq<Offer>, n: nat)
    requires n < |offers|
    ensures Matching(prefix, offers[..n + 1]) ==
      Matching(prefix, offers[..n]) + if Matches(offers[n].value, prefix) then [offers[n]] else []
  {
    assert offers[..n + 1][..n] == offers[..n];
  }
}
