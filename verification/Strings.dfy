// Looking for characters in strings.
module Strings {

  /** The first place from `from` on that holds `c`, or the end. */
  function Find(line: string, from: nat, c: char): (k: nat)
    requires from <= |line|
    ensures from <= k <= |line| && c !in line[from..k] && (k < |line| ==> line[k] == c)
    decreases |line| - from
  {
    if from == |line| || line[from] == c then from
    else
      assert line[from..Find(line, from + 1, c)] == [line[from]] + line[from + 1..Find(line, from + 1, c)];
      Find(line, from + 1, c)
  }

  lemma {:induction false} FindUnique(line: string, from: nat, c: char, k: nat)
    requires from <= k <= |line| && c !in line[from..k] && (k < |line| ==> line[k] == c)
    ensures Find(line, from, c) == k
    decreases k - from
  {
    if from < k {
      assert line[from] == line[from..k][0];
      assert line[from + 1..k] == line[from..k][1..];
      FindUnique(line, from + 1, c, k);
    }
  }

  lemma {:induction false} FoundBy(line: string, from: nat, c: char, i: nat)
    requires from <= i < |line| && line[i] == c
    ensures Find(line, from, c) <= i
    decreases i - from
  {
    if from < i {
      FoundBy(line, from + 1, c, i);
    }
  }

  lemma FindOn(line: string, from: nat, c: char)
    requires from <= |line|
    ensures Find(line, from, c) == if from == |line| || line[from] == c then from else Find(line, from + 1, c)
  {
  }
}
