/** The `$` helper of src/utils.ts: a query either names an element to create or is a selector. */
module Dom {

  /** What `$` does with its query. */
  datatype ElementQuery =
    | Create(tag: string)        // document.createElement(tag)
    | Select(selector: string)   // document.querySelector(selector)

  /** Clamps an index into [0, n], as JavaScript's `substring` does with its arguments. */
  function Clamp(i: int, n: nat): (c: nat)
    ensures c <= n
    ensures 0 <= i <= n ==> c == i
  {
    if i < 0 then 0 else if i > n then n else i
  }

  /** JavaScript's `String.prototype.substring`: both indices are clamped, and swapped when
      the start lies after the end. */
  function Substring(s: string, start: int, end: int): (r: string)
    ensures 0 <= start <= end <= |s| ==> r == s[start..end]
    ensures 0 <= end <= start <= |s| ==> r == s[end..start]
  {
    var a := Clamp(start, |s|);
    var b := Clamp(end, |s|);
    if a <= b then s[a..b] else s[b..a]
  }

  /** `$(query)`: a query whose first character is `<` creates an element named by the query
      without its first and last characters; every other query (the empty one included) is
      a selector. For the one-character query "<" the swapped `substring(1, 0)` gives "<". */
  function Element(query: string): (q: ElementQuery)
    ensures q.Create? <==> |query| > 0 && query[0] == '<'
    ensures q.Select? ==> q.selector == query
    ensures q.Create? && |query| >= 2 ==> q.tag == query[1..|query| - 1]
    ensures q.Create? && |query| == 1 ==> q.tag == query
  {
    if |query| > 0 && query[0] == '<' then Create(Substring(query, 1, |query| - 1))
    else Select(query)
  }

  /** Writing a tag name between angle brackets and handing it to `$` creates exactly that tag. */
  lemma TagRoundTrip(tag: string)
    ensures Element("<" + tag + ">") == Create(tag)
  {
    var q := "<" + tag + ">";
    assert q[1..|q| - 1] == tag;
  }
}
