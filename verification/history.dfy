/** The rolling mood history: on every submit the selected mood is appended
    and only the five most recent entries are kept. */
module History {

  /** The most entries the history ever holds. */
  const Capacity: nat := 5

  function Min(a: int, b: int): int {
    if a <= b then a else b
  }

  function Max(a: int, b: int): int {
    if a <= b then b else a
  }

  /** The last n elements of s, or all of s when it is shorter. */
  function LastN<T>(s: seq<T>, n: nat): seq<T> {
    s[|s| - Min(n, |s|)..]
  }

  /** Array.prototype.slice with only a start index: a negative start counts
      from the end, and an out-of-range start is clamped to the array. */
  function SliceFrom<T>(s: seq<T>, start: int): (r: seq<T>)
    ensures |r| <= |s| && r == s[|s| - |r|..]
    ensures start < 0 ==> |r| == Min(-start, |s|)
    ensures 0 <= start ==> |r| == |s| - Min(start, |s|)
  {
    var from := if start < 0 then Max(|s| + start, 0) else Min(start, |s|);
    s[from..]
  }

  /** One submit's update of the history: keep the last four entries of the
      previous history and put the submitted mood after them. */
  function Append(prev: seq<string>, mood: string): (h: seq<string>)
    ensures |h| == Min(4, |prev|) + 1 <= Capacity
    ensures h[|h| - 1] == mood
    ensures h[..|h| - 1] == LastN(prev, 4)
  {
    SliceFrom(prev, -4) + [mood]
  }

  /** The history after submitting each of moods in turn. */
  function AppendAll(h: seq<string>, moods: seq<string>): (r: seq<string>)
    ensures |h| <= Capacity ==> |r| <= Capacity
    ensures moods != [] ==> |r| > 0 && r[|r| - 1] == moods[|moods| - 1]
    decreases |moods|
  {
    if moods == [] then h else AppendAll(Append(h, moods[0]), moods[1..])
  }

  /** Every entry after an append was already in the history or is the
      submitted mood. */
  lemma AppendDrawsFrom(prev: seq<string>, mood: string)
    ensures forall m :: m in Append(prev, mood) ==> m in prev || m == mood
  {
    var h := Append(prev, mood);
    forall m | m in h
      ensures m in prev || m == mood
    {
      var i :| 0 <= i < |h| && h[i] == m;
      if i < |h| - 1 {
        assert h[i] == LastN(prev, 4)[i] == prev[|prev| - Min(4, |prev|) + i];
      }
    }
  }

  /** A sequence no longer than n is its own last n elements. */
  lemma LastNOfShort<T>(s: seq<T>, n: nat)
    requires |s| <= n
    ensures LastN(s, n) == s
  {
    assert Min(n, |s|) == |s|;
  }

  /** A suffix at least n long has the same last n elements as the whole. */
  lemma LastNOfSuffix<T>(u: seq<T>, v: seq<T>, n: nat)
    requires |u| <= |v| && u == v[|v| - |u|..]
    requires Min(n, |v|) <= |u|
    ensures LastN(u, n) == LastN(v, n)
  {
    var k := Min(n, |v|);
    assert Min(n, |u|) == k;
    forall i | 0 <= i < k
      ensures LastN(u, n)[i] == LastN(v, n)[i]
    {
      assert LastN(u, n)[i] == u[|u| - k + i] == v[|v| - |u| + |u| - k + i];
    }
  }

  /** One append is a window of five sliding over the moods submitted. */
  lemma AppendSlidesWindow(prev: seq<string>, moods: seq<string>)
    requires moods != []
    ensures LastN(Append(prev, moods[0]) + moods[1..], Capacity) == LastN(prev + moods, Capacity)
  {
    var h := Append(prev, moods[0]);
    var whole := prev + moods;
    assert h == LastN(prev, 4) + [moods[0]];
    var u := h + moods[1..];
    assert u == whole[|whole| - |u|..];
    LastNOfSuffix(u, whole, Capacity);
  }

  /** Starting from a history within capacity, any sequence of submits
      leaves exactly the last five moods of the whole record, in order. */
  lemma {:induction false} AppendAllKeepsLastFive(h: seq<string>, moods: seq<string>)
    requires |h| <= Capacity
    ensures AppendAll(h, moods) == LastN(h + moods, Capacity)
    decreases |moods|
  {
    if moods == [] {
      assert h + moods == h;
      LastNOfShort(h, Capacity);
    } else {
      AppendAllKeepsLastFive(Append(h, moods[0]), moods[1..]);
      AppendSlidesWindow(h, moods);
    }
  }

  /** Seven submits from an empty history keep the last five moods. */
  lemma SevenSubmits()
    ensures AppendAll([], ["a", "b", "c", "d", "e", "f", "g"]) == ["c", "d", "e", "f", "g"]
  {
    AppendAllKeepsLastFive([], ["a", "b", "c", "d", "e", "f", "g"]);
    assert [] + ["a", "b", "c", "d", "e", "f", "g"] == ["a", "b", "c", "d", "e", "f", "g"];
  }
}
