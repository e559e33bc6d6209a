/** Splitting and joining text, as Go's strings package does it. */
module Text {

  /** strings.Split(s, sep) for a separator of one character. */
  function SplitOn(s: string, sep: char): (r: seq<string>)
    ensures r != []
    ensures forall i :: 0 <= i < |r| ==> sep !in r[i]
  {
    if s == "" then [""]
    else
      var r := SplitOn(s[1..], sep);
      if s[0] == sep then [""] + r else [[s[0]] + r[0]] + r[1..]
  }

  /** strings.Join(cs, sep). */
  function JoinWith(cs: seq<string>, sep: char): string {
    if cs == [] then ""
    else if |cs| == 1 then cs[0]
    else cs[0] + [sep] + JoinWith(cs[1..], sep)
  }

  lemma {:induction false} JoinSplit(s: string, sep: char)
    ensures JoinWith(SplitOn(s, sep), sep) == s
  {
    if s != "" {
      JoinSplit(s[1..], sep);
      var r := SplitOn(s[1..], sep);
      if s[0] != sep && |r| > 1 {
        assert SplitOn(s, sep)[1..] == r[1..];
        assert JoinWith(SplitOn(s, sep), sep) == [s[0]] + (r[0] + [sep] + JoinWith(r[1..], sep));
      } else if s[0] == sep {
        assert SplitOn(s, sep)[1..] == r;
      }
    }
  }

  lemma {:induction false} SplitFirst(c: string, rest: string, sep: char)
    requires sep !in c
    ensures SplitOn(c + [sep] + rest, sep) == [c] + SplitOn(rest, sep)
    ensures SplitOn(c, sep) == [c]
  {
    if c == "" {
      assert c + [sep] + rest == [sep] + rest;
      assert ([sep] + rest)[1..] == rest;
    } else {
      SplitFirst(c[1..], rest, sep);
      assert (c + [sep] + rest)[1..] == c[1..] + [sep] + rest;
      assert c == [c[0]] + c[1..];
    }
  }

  lemma {:induction false} SplitJoin(cs: seq<string>, sep: char)
    requires cs != [] && forall i :: 0 <= i < |cs| ==> sep !in cs[i]
    ensures SplitOn(JoinWith(cs, sep), sep) == cs
  {
    if |cs| == 1 {
      SplitFirst(cs[0], "", sep);
    } else {
      SplitJoin(cs[1..], sep);
      SplitFirst(cs[0], JoinWith(cs[1..], sep), sep);
    }
  }
}
