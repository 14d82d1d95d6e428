/**
 * Field names describe nesting with a double underscore: the field
 * `server__port` stands for the entry `port` of the dictionary `server`.
 * `Split` is Python's `name.split('__')`.
 */
module FieldPath {

  const Separator: string := "__"

  /** True when `s` holds two consecutive underscores somewhere. */
  predicate HasSeparator(s: string) {
    exists i :: 0 <= i < |s| - 1 && s[i] == '_' && s[i + 1] == '_'
  }

  /**
   * `s.split('__')`: cut at every occurrence of the separator, scanning from
   * the left and never reusing an underscore, so `a___b` gives `a` and `_b`.
   */
  function Split(s: string): (steps: seq<string>)
    ensures |steps| >= 1
    decreases |s|
  {
    if |s| < 2 then [s]
    else if s[0] == '_' && s[1] == '_' then [""] + Split(s[2..])
    else
      var rest := Split(s[1..]);
      [[s[0]] + rest[0]] + rest[1..]
  }

  /** `'__'.join(steps)`. */
  function Join(steps: seq<string>): string
    requires |steps| >= 1
    decreases |steps|
  {
    if |steps| == 1 then steps[0] else steps[0] + Separator + Join(steps[1..])
  }

  lemma JoinConsChar(c: char, x: string, t: seq<string>)
    ensures Join([[c] + x] + t) == [c] + Join([x] + t)
  {
    if t != [] {
      assert ([[c] + x] + t)[1..] == t && ([x] + t)[1..] == t;
    }
  }

  /** Joining the pieces with `'__'` gives the field name back. */
  lemma {:induction false} JoinSplit(s: string)
    ensures Join(Split(s)) == s
    decreases |s|
  {
    if |s| < 2 {
    } else if s[0] == '_' && s[1] == '_' {
      JoinSplit(s[2..]);
      assert ([""] + Split(s[2..]))[1..] == Split(s[2..]);
      assert s == Separator + s[2..];
    } else {
      var rest := Split(s[1..]);
      JoinSplit(s[1..]);
      JoinConsChar(s[0], rest[0], rest[1..]);
      assert [rest[0]] + rest[1..] == rest;
      assert s == [s[0]] + s[1..];
    }
  }

  /** No piece holds the separator, so each piece is one key. */
  lemma {:induction false} SplitPiecesAreKeys(s: string)
    ensures forall i :: 0 <= i < |Split(s)| ==> !HasSeparator(Split(s)[i])
    decreases |s|
  {
    if |s| < 2 {
    } else if s[0] == '_' && s[1] == '_' {
      SplitPiecesAreKeys(s[2..]);
      assert forall i :: 1 <= i < |Split(s)| ==> Split(s)[i] == Split(s[2..])[i - 1];
    } else {
      SplitPiecesAreKeys(s[1..]);
      var rest := Split(s[1..]);
      var head := [s[0]] + rest[0];
      SplitHeadIsPrefix(s[1..]);
      JoinSplit(s[1..]);
      assert !HasSeparator(head);
      assert forall i :: 1 <= i < |Split(s)| ==> Split(s)[i] == rest[i];
    }
  }

  /** The first piece is where the name starts. */
  lemma {:induction false} SplitHeadIsPrefix(s: string)
    ensures |Split(s)[0]| <= |s| && s[..|Split(s)[0]|] == Split(s)[0]
    decreases |s|
  {
    if |s| < 2 {
      assert Split(s) == [s];
    } else if s[0] == '_' && s[1] == '_' {
      assert Split(s)[0] == "";
    } else {
      var rest := Split(s[1..]);
      SplitHeadIsPrefix(s[1..]);
      assert Split(s)[0] == [s[0]] + rest[0];
      assert s[..|rest[0]| + 1] == [s[0]] + s[1..][..|rest[0]|];
    }
  }

  /** A name without a double underscore is a single, top-level key. */
  lemma {:induction false} SplitPlainName(s: string)
    requires !HasSeparator(s)
    ensures Split(s) == [s]
    decreases |s|
  {
    if |s| >= 2 {
      assert !(s[0] == '_' && s[1] == '_');
      assert !HasSeparator(s[1..]);
      SplitPlainName(s[1..]);
      assert [s[0]] + s[1..] == s;
    }
  }

  /** Joined pieces start with the first piece. */
  lemma JoinSplitHeadPrefix(steps: seq<string>)
    requires |steps| >= 1
    ensures |steps[0]| <= |Join(steps)| && Join(steps)[..|steps[0]|] == steps[0]
  {
  }

  /** A piece ends in an underscore. */
  predicate EndsWithUnderscore(piece: string) {
    |piece| > 0 && piece[|piece| - 1] == '_'
  }

  /** Joined pieces start with the first piece, then the separator when more follow. */
  lemma JoinHead(steps: seq<string>)
    requires |steps| >= 2
    ensures Join(steps) == steps[0] + Separator + Join(steps[1..])
  {
  }

  /**
   * The cuts are leftmost: no piece but the last ends in `_`, since an
   * underscore followed by the separator would have been cut one place
   * earlier (`a___b` gives `a` and `_b`, never `a_` and `b`).
   */
  lemma {:induction false} SplitLeftmost(s: string)
    ensures forall i :: 0 <= i < |Split(s)| - 1 ==> !EndsWithUnderscore(Split(s)[i])
    decreases |s|
  {
    if |s| < 2 {
    } else if s[0] == '_' && s[1] == '_' {
      SplitLeftmost(s[2..]);
      assert forall i :: 1 <= i < |Split(s)| ==> Split(s)[i] == Split(s[2..])[i - 1];
    } else {
      var rest := Split(s[1..]);
      SplitLeftmost(s[1..]);
      var head := [s[0]] + rest[0];
      if |rest| >= 2 && rest[0] == "" {
        // an empty first piece among several means `s[1..]` starts with the separator
        JoinSplit(s[1..]);
        JoinHead(rest);
        assert s[1..] == "" + Separator + Join(rest[1..]);
        assert s[1] == '_';
        assert !EndsWithUnderscore(head);
      }
      assert forall i :: 1 <= i < |Split(s)| ==> Split(s)[i] == rest[i];
    }
  }

  /**
   * `Split` is the only way to cut a name into pieces that join back to it,
   * hold no separator, and (all but the last) do not end in `_`.
   */
  lemma {:induction false} SplitUnique(s: string, steps: seq<string>)
    requires |steps| >= 1 && Join(steps) == s
    requires forall i :: 0 <= i < |steps| ==> !HasSeparator(steps[i])
    requires forall i :: 0 <= i < |steps| - 1 ==> !EndsWithUnderscore(steps[i])
    ensures steps == Split(s)
    decreases |s|
  {
    if |steps| == 1 {
      SplitPlainName(s);
    } else if steps[0] == "" {
      JoinHead(steps);
      assert s == Separator + Join(steps[1..]);
      assert s[2..] == Join(steps[1..]);
      SplitUnique(s[2..], steps[1..]);
      assert steps == [""] + steps[1..];
    } else {
      var c := steps[0][0];
      var x := steps[0][1..];
      var tail := [x] + steps[1..];
      assert steps[0] == [c] + x;
      assert steps == [[c] + x] + steps[1..];
      JoinConsChar(c, x, steps[1..]);
      assert s == [c] + Join(tail);
      // the name does not start with the separator
      assert !EndsWithUnderscore(steps[0]) && !HasSeparator(steps[0]);
      JoinSplitHeadPrefix(tail);
      if x == "" {
        assert steps[0][|steps[0]| - 1] == c;
        JoinHead(tail);
        assert s[1..] == Join(tail) == x + Separator + Join(steps[1..]);
      } else {
        assert s[1] == x[0] == steps[0][1];
      }
      assert !(s[0] == '_' && s[1] == '_');
      // the shorter pieces satisfy the same conditions
      assert forall j :: 0 <= j < |x| ==> x[j] == steps[0][j + 1];
      assert !HasSeparator(x);
      assert forall i :: 1 <= i < |tail| ==> tail[i] == steps[i];
      assert x != "" ==> x[|x| - 1] == steps[0][|steps[0]| - 1];
      assert !EndsWithUnderscore(x);
      assert s[1..] == Join(tail);
      SplitUnique(s[1..], tail);
      assert Split(s) == [[c] + tail[0]] + tail[1..];
    }
  }
}
