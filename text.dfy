/** PHP's `explode(' ', s)` and its inverse `implode(' ', ts)`, used to split
    a space-separated wrapper name into its path segments. */
module Text {

  predicate NoSpace(s: string) {
    ' ' !in s
  }

  /** `explode(' ', s)`: the pieces between single spaces, always at least
      one (the empty string yields one empty piece, two adjacent spaces an
      empty piece between them). */
  function Explode(s: string): (pieces: seq<string>)
    ensures |pieces| >= 1
    ensures forall i :: 0 <= i < |pieces| ==> NoSpace(pieces[i])
    decreases |s|
  {
    if s == [] then [""]
    else if s[0] == ' ' then [""] + Explode(s[1..])
    else
      var rest := Explode(s[1..]);
      [[s[0]] + rest[0]] + rest[1..]
  }

  /** `implode(' ', ts)`. */
  function Join(ts: seq<string>): string
    requires |ts| >= 1
    decreases |ts|
  {
    if |ts| == 1 then ts[0] else ts[0] + " " + Join(ts[1..])
  }

  /** Splitting a joined name gives back its segments, provided no segment
      holds a space. */
  lemma {:induction false} ExplodeJoin(ts: seq<string>)
    requires |ts| >= 1
    requires forall i :: 0 <= i < |ts| ==> NoSpace(ts[i])
    ensures Explode(Join(ts)) == ts
    decreases |ts|
  {
    if |ts| == 1 {
      ExplodeWord(ts[0], "");
      assert ts[0] + "" == ts[0];
    } else {
      var tail := Join(ts[1..]);
      ExplodeJoin(ts[1..]);
      assert ts[0] + " " + tail == ts[0] + (" " + tail);
      ExplodeWord(ts[0], " " + tail);
      assert (" " + tail)[1..] == tail;
      assert Explode(" " + tail) == [""] + ts[1..];
      assert ts[0] + "" == ts[0];
      assert ts == [ts[0]] + ts[1..];
    }
  }

  /** Joining the pieces of any string gives back the string. */
  lemma {:induction false} JoinExplode(s: string)
    ensures Join(Explode(s)) == s
    decreases |s|
  {
    if s != [] {
      JoinExplode(s[1..]);
      var rest := Explode(s[1..]);
      if s[0] == ' ' {
        assert Explode(s)[1..] == rest;
      } else {
        var ps := Explode(s);
        assert ps[1..] == rest[1..];
        if |rest| > 1 {
          assert Join(rest) == rest[0] + " " + Join(rest[1..]);
        }
      }
    }
  }

  /** A leading space-free word sticks to the first piece of what follows. */
  lemma {:induction false} ExplodeWord(a: string, b: string)
    requires NoSpace(a)
    ensures Explode(a + b) == [a + Explode(b)[0]] + Explode(b)[1..]
    decreases |a|
  {
    if a == [] {
      assert a + b == b;
      var e := Explode(b);
      assert [] + e[0] == e[0];
      assert e == [e[0]] + e[1..];
    } else {
      assert (a + b)[1..] == a[1..] + b;
      ExplodeWord(a[1..], b);
      assert [a[0]] + (a[1..] + Explode(b)[0]) == a + Explode(b)[0];
    }
  }
}
