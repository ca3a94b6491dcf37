/** Global replacement of one character, shared by the CSV writer and the HTML escaper. */
module Text {
  /** Every occurrence of a character replaced, left to right, as a global regular-expression replace does. */
  function ReplaceAll(s: string, c: char, put: string): string {
    if s == "" then "" else Replace(s[0], c, put) + ReplaceAll(s[1..], c, put)
  }

  function Replace(d: char, c: char, put: string): string {
    if d == c then put else [d]
  }

  /** The parts with a separator between neighbours. */
  function Join(parts: seq<string>, separator: char): string {
    if |parts| == 0 then ""
    else if |parts| == 1 then parts[0]
    else parts[0] + [separator] + Join(parts[1..], separator)
  }

  lemma {:induction false} ReplaceNothing(s: string, c: char, put: string)
    requires c !in s
    ensures ReplaceAll(s, c, put) == s
  {
    if s != "" {
      ReplaceNothing(s[1..], c, put);
      assert s == [s[0]] + s[1..];
    }
  }
}
