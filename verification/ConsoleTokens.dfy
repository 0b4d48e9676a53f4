// The console's command line, a token at a time.
module ConsoleTokens {
  import opened Strings
  import opened Options

  /** A dash followed by a letter, so that a negative number is not taken for an option. */
  predicate IsOptionName(text: string)
  {
    |text| >= 2 && text[0] == '-' && IsAlpha(text[1])
  }

  datatype Token = Token(text: string, start: nat, end: nat, quoted: bool)
  {
    /** A quoted token never is an option. */
    predicate IsOption()
    {
      !quoted && IsOptionName(text)
    }
  }

  predicate IsAlpha(c: char)
  {
    'a' <= c <= 'z' || 'A' <= c <= 'Z'
  }

  predicate IsQuote(c: char)
  {
    c == '"' || c == '\''
  }

  /** The first place from `from` on that is not a space, or the end. */
  function Skip(line: string, from: nat): (k: nat)
    requires from <= |line|
    ensures from <= k <= |line| && (forall i :: from <= i < k ==> line[i] == ' ')
    ensures k < |line| ==> line[k] != ' '
    decreases |line| - from
  {
    if from == |line| || line[from] != ' ' then from else Skip(line, from + 1)
  }

  /** The token that starts at `p`; the closing quote may be missing. */
  function TokenAt(line: string, p: nat): (t: Token)
    requires p < |line| && line[p] != ' '
    ensures t.start == p < t.end <= |line|
  {
    if IsQuote(line[p]) then
      var k := Find(line, p + 1, line[p]);
      Token(line[p + 1..k], p, if k < |line| then k + 1 else k, true)
    else
      var k := Find(line, p, ' ');
      assert k != p;
      Token(line[p..k], p, k, false)
  }

  function Next(line: string, pos: nat): (t: Option<Token>)
    requires pos <= |line|
    ensures t.Some? ==> pos <= t.value.start < t.value.end <= |line|
  {
    var p := Skip(line, pos);
    if p == |line| then None else Some(TokenAt(line, p))
  }

  /** What the next token is, in terms of the line: it starts at the first place that is not a space; a
      quote there is closed by the next one like it, or never; any other token ends at a space. */
  lemma NextMeans(line: string, pos: nat)
    requires pos <= |line|
    ensures Next(line, pos).None? <==> forall i :: pos <= i < |line| ==> line[i] == ' '
    ensures Next(line, pos).Some? ==>
      var t := Next(line, pos).value;
      && pos <= t.start < t.end <= |line| && line[t.start] != ' ' && (forall i :: pos <= i < t.start ==> line[i] == ' ')
      && (t.quoted <==> line[t.start] == '"' || line[t.start] == '\'')
      && (t.quoted ==>
            && line[t.start] !in t.text
            && if t.end == t.start + |t.text| + 2
               then t.text == line[t.start + 1..t.end - 1] && line[t.end - 1] == line[t.start]
               else t.end == |line| && t.text == line[t.start + 1..])
      && (!t.quoted ==>
            && t.text == line[t.start..t.end] && ' ' !in t.text && (t.end == |line| || line[t.end] == ' '))
  {
  }

  function Tokens(line: string, pos: nat): seq<Token>
    requires pos <= |line|
    decreases |line| - pos
  {
    match Next(line, pos)
    case None => []
    case Some(t) => [t] + Tokens(line, t.end)
  }

  class Tokenizer {
    const line: string
    var pos: nat

    constructor (line: string)
      ensures this.line == line && pos == 0
    {
      this.line := line;
      pos := 0;
    }

    method NextToken() returns (token: Option<Token>)
      requires pos <= |line|
      modifies this
      ensures old(pos) <= pos <= |line|
      ensures token == Next(line, old(pos))
      ensures token.Some? ==> pos == token.value.end
    {
      hide Skip, Find, IsQuote;
      ghost var was := pos;
      SkipSpaces();
      if pos >= |line| {
        return None;
      }
      var start, quote := pos, line[pos];
      var quoted := IsQuote(quote);
      var text;
      if quoted {
        pos := pos + 1;
        text := ReadUpTo(quote);
        if pos < |line| {
          pos := pos + 1;
        }
      } else {
        text := ReadUpTo(' ');
      }
      return Some(Token(text, start, pos, quoted));
    }

    method SkipSpaces()
      requires pos <= |line|
      modifies this
      ensures pos == Skip(line, old(pos))
    {
      while pos < |line| && line[pos] == ' '
        invariant old(pos) <= pos <= |line| && Skip(line, pos) == Skip(line, old(pos))
      {
        pos := pos + 1;
      }
    }

    method ReadUpTo(c: char) returns (text: string)
      requires pos <= |line|
      modifies this
      ensures pos == Find(line, old(pos), c) && text == line[old(pos)..pos]
    {
      hide Find;
      text := "";
      while pos < |line| && line[pos] != c
        invariant old(pos) <= pos <= |line| && |text| == pos - old(pos)
        invariant forall i :: 0 <= i < |text| ==> text[i] == line[old(pos) + i]
        invariant Find(line, pos, c) == Find(line, old(pos), c)
      {
        FindOn(line, pos, c);
        text := text + [line[pos]];
        pos := pos + 1;
      }
      FindOn(line, pos, c);
      assert text == line[old(pos)..pos];
    }
  }

  // What a token depends on.

  lemma {:induction false} SkipUnique(line: string, from: nat, k: nat)
    requires from <= k <= |line| && (forall i :: from <= i < k ==> line[i] == ' ')
    requires k < |line| ==> line[k] != ' '
    ensures Skip(line, from) == k
    decreases k - from
  {
    if from < k {
      SkipUnique(line, from + 1, k);
    }
  }

  /** A token that is over by `k`: what comes after `k` makes no difference to it. */
  ghost predicate Over(line: string, t: Token, k: nat)
  {
    && t.start < t.end <= k <= |line|
    && (t.quoted ==> line[t.end - 1] == line[t.start] && t.end - 1 > t.start && |t.text| == t.end - t.start - 2)
    && (!t.quoted ==> t.end < k)
  }

  lemma SameToken(line: string, other: string, pos: nat, k: nat)
    requires pos <= k <= |line| && k <= |other| && line[..k] == other[..k]
    requires Next(line, pos).Some? && Over(line, Next(line, pos).value, k)
    ensures Next(other, pos) == Next(line, pos)
  {
    hide Skip, Find;
    var t := Next(line, pos).value;
    assert forall i :: 0 <= i < k ==> line[..k][i] == line[i] && other[..k][i] == other[i];
    SkipUnique(other, pos, t.start);
    if t.quoted {
      SameFind(line, other, t.start + 1, line[t.start], t.end - 1, k);
    } else {
      SameFind(line, other, t.start, ' ', t.end, k);
    }
  }

  lemma SameFind(line: string, other: string, from: nat, c: char, end: nat, k: nat)
    requires from <= end < k <= |line| && k <= |other| && line[..k] == other[..k]
    requires Find(line, from, c) == end
    ensures Find(other, from, c) == end && other[from..end] == line[from..end]
  {
    hide Find;
    assert forall i :: 0 <= i < k ==> line[..k][i] == line[i] && other[..k][i] == other[i];
    FindUnique(other, from, c, end);
  }

  lemma {:induction false} SkipTo(line: string, from: nat, k: nat)
    requires from <= k <= |line| && forall i :: from <= i < k ==> line[i] == ' '
    ensures Skip(line, from) == Skip(line, k)
    decreases k - from
  {
    if from < k {
      SkipTo(line, from + 1, k);
    }
  }
}
