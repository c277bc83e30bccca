/**
 * The string handling the corpus handler shares between its operations:
 * `s.split(',')`, `str.lower()` applied to every item, and `','.join(...)`
 * as the reference that splitting is measured against.
 */
module Text {

  /** An ASCII upper-case letter: the only characters `Lower` changes. */
  predicate IsUpper(c: char) { 'A' <= c <= 'Z' }

  /** A string with no ASCII upper-case letter left in it. */
  predicate IsLower(s: string) { forall i :: 0 <= i < |s| ==> !IsUpper(s[i]) }

  /** Lower-cases one character (ASCII only). */
  function LowerChar(c: char): (r: char)
    ensures !IsUpper(r)
    ensures r == c || (IsUpper(c) && r as int == c as int + 32)
  {
    if IsUpper(c) then (c as int + 32) as char else c
  }

  /** `s.lower()`, restricted to ASCII letters. */
  function Lower(s: string): (r: string)
    ensures |r| == |s| && IsLower(r)
    ensures forall i :: 0 <= i < |s| ==> r[i] == LowerChar(s[i])
  {
    seq(|s|, i requires 0 <= i < |s| => LowerChar(s[i]))
  }

  /** `s.split(',')`: the pieces between commas, empty pieces included. */
  function Split(s: string): (parts: seq<string>)
    ensures |parts| >= 1
    ensures forall i :: 0 <= i < |parts| ==> ',' !in parts[i]
  {
    if s == [] then [""]
    else
      var rest := Split(s[1..]);
      if s[0] == ',' then [""] + rest
      else [[s[0]] + rest[0]] + rest[1..]
  }

  /** `','.join(parts)`. */
  function Join(parts: seq<string>): (s: string)
  {
    if parts == [] then ""
    else if |parts| == 1 then parts[0]
    else parts[0] + "," + Join(parts[1..])
  }

  /** `map(lambda t: t.lower(), parts)`. */
  function LowerAll(parts: seq<string>): (r: seq<string>)
    ensures |r| == |parts|
    ensures forall i :: 0 <= i < |parts| ==> r[i] == Lower(parts[i]) && IsLower(r[i])
  {
    seq(|parts|, i requires 0 <= i < |parts| => Lower(parts[i]))
  }

  /**
   * `map(lambda t: t.lower(), s.split(','))`, the list parsing used for the
   * `keywords` and `tags` arguments.
   */
  function ParseList(s: string): (items: seq<string>)
    ensures |items| == |Split(s)|
    ensures forall i :: 0 <= i < |items| ==> IsLower(items[i])
  {
    LowerAll(Split(s))
  }

  /** There is one piece more than there are commas. */
  lemma {:induction false} SplitCount(s: string)
    ensures |Split(s)| == multiset(s)[','] + 1
  {
    if s != [] {
      SplitCount(s[1..]);
      assert s == [s[0]] + s[1..];
    }
  }

  /** Joining the pieces of a split with ',' gives back the input. */
  lemma {:induction false} SplitThenJoin(s: string)
    ensures Join(Split(s)) == s
  {
    if s != [] {
      var rest := Split(s[1..]);
      SplitThenJoin(s[1..]);
      if s[0] == ',' {
        assert Split(s) == [""] + rest;
        assert ([""] + rest)[1..] == rest;
        assert Join(Split(s)) == "" + "," + Join(rest);
      } else {
        var head := [s[0]] + rest[0];
        assert Split(s) == [head] + rest[1..];
        if |rest| == 1 {
          assert Join(Split(s)) == head;
          assert Join(rest) == rest[0];
        } else {
          assert ([head] + rest[1..])[1..] == rest[1..];
          assert Join(Split(s)) == head + "," + Join(rest[1..]);
          assert Join(rest) == rest[0] + "," + Join(rest[1..]);
        }
        assert s == [s[0]] + s[1..];
      }
    }
  }

  /** A comma-free prefix is glued onto the first piece of what follows it. */
  lemma {:induction false} SplitPrefix(x: string, t: string)
    requires ',' !in x
    ensures Split(x + t) == [x + Split(t)[0]] + Split(t)[1..]
  {
    if x == [] {
      assert x + t == t;
      assert x + Split(t)[0] == Split(t)[0];
      assert Split(t) == [Split(t)[0]] + Split(t)[1..];
    } else {
      var tail := Split(t);
      var rest := Split(x[1..] + t);
      SplitPrefix(x[1..], t);
      assert rest[0] == x[1..] + tail[0] && rest[1..] == tail[1..];
      assert (x + t)[1..] == x[1..] + t;
      assert (x + t)[0] == x[0] != ',';
      assert Split(x + t) == [[x[0]] + rest[0]] + rest[1..];
      assert [x[0]] + (x[1..] + tail[0]) == x + tail[0];
    }
  }

  /** A leading comma starts a new, empty first piece. */
  lemma SplitLeadingComma(u: string)
    ensures Split("," + u) == [""] + Split(u)
  {
    assert ("," + u)[1..] == u;
  }

  /** A comma-free string splits into itself alone. */
  lemma SplitCommaFree(x: string)
    requires ',' !in x
    ensures Split(x) == [x]
  {
    SplitPrefix(x, "");
    assert Split("") == [""];
    assert x + "" == x;
  }

  /** Splitting a ','-join of comma-free pieces gives the pieces back, in order. */
  lemma {:induction false} JoinThenSplit(parts: seq<string>)
    requires |parts| >= 1
    requires forall i :: 0 <= i < |parts| ==> ',' !in parts[i]
    ensures Split(Join(parts)) == parts
  {
    var first := parts[0];
    if |parts| == 1 {
      SplitCommaFree(first);
    } else {
      var others := parts[1..];
      JoinThenSplit(others);
      var tail := "," + Join(others);
      SplitLeadingComma(Join(others));
      assert Join(parts) == first + tail by {
        assert Join(parts) == first + "," + Join(others);
      }
      SplitPrefix(first, tail);
      assert first + "" == first;
      assert [first] + others == parts;
    }
  }

  /** Lower-casing distributes over concatenation. */
  lemma LowerAppend(a: string, b: string)
    ensures Lower(a + b) == Lower(a) + Lower(b)
  {
    var l, r := Lower(a + b), Lower(a) + Lower(b);
    forall i | 0 <= i < |l| ensures l[i] == r[i] {
      if i < |a| {
        assert (a + b)[i] == a[i];
      } else {
        assert (a + b)[i] == b[i - |a|];
      }
    }
  }

  /** Lower-casing every piece and then joining is lower-casing the join. */
  lemma {:induction false} JoinLowerAll(parts: seq<string>)
    ensures Join(LowerAll(parts)) == Lower(Join(parts))
  {
    if |parts| > 1 {
      var lowered := LowerAll(parts);
      var tail := "," + Join(parts[1..]);
      assert lowered[1..] == LowerAll(parts[1..]);
      JoinLowerAll(parts[1..]);
      LowerAfterComma(Join(parts[1..]));
      assert Join(parts) == parts[0] + tail;
      LowerAppend(parts[0], tail);
      assert Join(lowered) == lowered[0] + ("," + Join(lowered[1..]));
    }
  }

  /** A comma is its own lower case. */
  lemma LowerAfterComma(rest: string)
    ensures Lower("," + rest) == "," + Lower(rest)
  {
    LowerAppend(",", rest);
    assert Lower(",") == ",";
  }

  /** Lower-casing neither adds nor removes commas. */
  lemma LowerKeepsCommas(x: string)
    ensures (',' in Lower(x)) == (',' in x)
  {
    if ',' in x {
      var i :| 0 <= i < |x| && x[i] == ',';
      assert Lower(x)[i] == ',';
    }
    if ',' in Lower(x) {
      var i :| 0 <= i < |x| && Lower(x)[i] == ',';
      assert x[i] == ',';
    }
  }

  /**
   * What the parsed list is: one item per comma-separated piece of the input,
   * in order, empty pieces kept; each item the lower-cased piece; joining the
   * items with ',' gives back the lower-cased input; and parsing is splitting
   * the lower-cased input.
   */
  lemma ParseListMeaning(s: string)
    ensures |ParseList(s)| == |Split(s)| == multiset(s)[','] + 1
    ensures forall i :: 0 <= i < |Split(s)| ==>
              ParseList(s)[i] == Lower(Split(s)[i]) && ',' !in ParseList(s)[i]
    ensures Join(ParseList(s)) == Lower(s)
    ensures ParseList(s) == Split(Lower(s))
  {
    var items := ParseList(s);
    SplitCount(s);
    forall i | 0 <= i < |items| ensures ',' !in items[i] {
      LowerKeepsCommas(Split(s)[i]);
    }
    JoinLowerAll(Split(s));
    SplitThenJoin(s);
    JoinThenSplit(items);
  }
}
