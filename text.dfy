/**
 * The parts of java.lang.String that the driver relies on: `contains`,
 * `lastIndexOf` and `split(",")`. Java strings are modelled as `seq<char>`.
 */
module Text {

  /** `sub` occurs in `s` starting at index `i`. */
  predicate OccursAt(s: string, sub: string, i: int) {
    0 <= i && i + |sub| <= |s| && s[i..i + |sub|] == sub
  }

  /** Java `s.contains(sub)`: plain substring containment (the empty string is contained everywhere). */
  predicate Contains(s: string, sub: string) {
    exists i :: 0 <= i <= |s| && OccursAt(s, sub, i)
  }

  /** Every string contains itself. */
  lemma ContainsItself(s: string)
    ensures Contains(s, s)
  {
    assert OccursAt(s, s, 0);
  }

  /** A string contains its prefixes. */
  lemma ContainsPrefix(s: string, t: string)
    ensures Contains(s + t, s)
  {
    assert OccursAt(s + t, s, 0);
  }

  /** Java `s.lastIndexOf(sub)`: the greatest index at which `sub` occurs, or -1. */
  function LastIndexOf(s: string, sub: string): (r: int)
    ensures r == -1 || OccursAt(s, sub, r)
    ensures forall j :: r < j ==> !OccursAt(s, sub, j)
    ensures r == -1 <==> !Contains(s, sub)
    decreases |s|
  {
    if |s| < |sub| then -1
    else if s[|s| - |sub|..] == sub then |s| - |sub|
    else
      var r := LastIndexOf(s[..|s| - 1], sub);
      assert forall j :: OccursAt(s, sub, j) ==> j < |s| - |sub| && OccursAt(s[..|s| - 1], sub, j) by {
        forall j | OccursAt(s, sub, j) ensures j < |s| - |sub| && OccursAt(s[..|s| - 1], sub, j) {
          assert s[j..j + |sub|] == s[..|s| - 1][j..j + |sub|] || j + |sub| == |s|;
        }
      }
      assert r != -1 ==> s[..|s| - 1][r..r + |sub|] == s[r..r + |sub|];
      r
  }

  /** Every field of a split, with `,` between consecutive fields. */
  function Join(fields: seq<string>): string {
    if fields == [] then ""
    else if |fields| == 1 then fields[0]
    else fields[0] + "," + Join(fields[1..])
  }

  /**
   * All comma-separated fields of `s`, empty ones included
   * (Java `s.split(",", -1)`): the fields carry no comma and joining
   * them back gives `s`.
   */
  function SplitAll(s: string): (fields: seq<string>)
    ensures |fields| >= 1
    ensures forall k :: 0 <= k < |fields| ==> ',' !in fields[k]
    ensures Join(fields) == s
    ensures ',' !in s ==> fields == [s]
    decreases |s|
  {
    if s == [] then [""]
    else if s[0] == ',' then
      var rest := SplitAll(s[1..]);
      assert s == "," + s[1..];
      [""] + rest
    else
      var rest := SplitAll(s[1..]);
      assert s == [s[0]] + s[1..];
      [[s[0]] + rest[0]] + rest[1..]
  }

  /** Drops the empty fields at the end. */
  function DropTrailingEmpty(fields: seq<string>): (r: seq<string>)
    ensures r <= fields
    ensures r == [] || r[|r| - 1] != ""
    ensures forall k :: |r| <= k < |fields| ==> fields[k] == ""
    decreases |fields|
  {
    if fields != [] && fields[|fields| - 1] == "" then DropTrailingEmpty(fields[..|fields| - 1])
    else fields
  }

  /**
   * Java `s.split(",")`: when `s` has no comma the result is `[s]` (even for
   * the empty string); otherwise it is every field with the trailing empty
   * fields removed.
   */
  function JavaSplit(s: string): (parts: seq<string>)
    ensures ',' !in s ==> parts == [s]
    ensures ',' in s ==> parts <= SplitAll(s) && (parts == [] || parts[|parts| - 1] != "")
    ensures ',' in s ==> forall k :: |parts| <= k < |SplitAll(s)| ==> SplitAll(s)[k] == ""
  {
    if ',' !in s then [s] else DropTrailingEmpty(SplitAll(s))
  }

  /** Splitting a string that starts with a comma-free field peels that field off. */
  lemma {:induction false} SplitAllField(x: string, y: string)
    requires ',' !in x
    ensures SplitAll(x + "," + y) == [x] + SplitAll(y)
    decreases |x|
  {
    var s := x + "," + y;
    if x == [] {
      assert s == "," + y && s[0] == ',' && s[1..] == y;
    } else {
      assert s[0] == x[0] && s[0] != ',';
      assert s[1..] == x[1..] + "," + y;
      SplitAllField(x[1..], y);
      var rest := SplitAll(s[1..]);
      assert rest == [x[1..]] + SplitAll(y);
      assert SplitAll(s) == [[s[0]] + rest[0]] + rest[1..];
      assert [x[0]] + x[1..] == x;
    }
  }

  /** A string made of commas only splits into empty fields. */
  lemma {:induction false} SplitAllCommas(t: string)
    requires forall k :: 0 <= k < |t| ==> t[k] == ','
    ensures forall k :: 0 <= k < |SplitAll(t)| ==> SplitAll(t)[k] == ""
    decreases |t|
  {
    if t != [] {
      SplitAllCommas(t[1..]);
    }
  }
}
