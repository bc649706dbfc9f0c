/** Line and column of a buffer position, with a cache of line starts and of the last line asked for. */
module SourceLines {

  /** Newlines among the first n characters. */
  function Newlines(buffer: string, n: nat): nat
    requires n <= |buffer|
  {
    if n == 0 then 0 else Newlines(buffer, n - 1) + if buffer[n - 1] == '\n' then 1 else 0
  }

  /** Where the line of position n starts. */
  function LineStart(buffer: string, n: nat): (r: nat)
    requires n <= |buffer|
    ensures r <= n
  {
    if n == 0 || buffer[n - 1] == '\n' then n else LineStart(buffer, n - 1)
  }

  /** All line starts up to position n. */
  function Starts(buffer: string, n: nat): (r: seq<nat>)
    requires n <= |buffer|
    ensures |r| == 1 + Newlines(buffer, n) && r[Newlines(buffer, n)] == LineStart(buffer, n) && r[0] == 0
  {
    if n == 0 then [0]
    else if buffer[n - 1] == '\n' then Starts(buffer, n - 1) + [n]
    else Starts(buffer, n - 1)
  }

  predicate Sorted(s: seq<nat>) { forall i, j :: 0 <= i < j < |s| ==> s[i] < s[j] }

  lemma {:induction false} StartsSorted(buffer: string, n: nat)
    requires n <= |buffer|
    ensures Sorted(Starts(buffer, n)) && forall i :: 0 <= i < |Starts(buffer, n)| ==> Starts(buffer, n)[i] <= n
    decreases n
  {
    if n > 0 { StartsSorted(buffer, n - 1); }
  }

  /** Later starts come after, so those up to p are a prefix. */
  lemma {:induction false} StartsPrefix(buffer: string, p: nat, n: nat)
    requires p <= n <= |buffer|
    ensures Starts(buffer, p) <= Starts(buffer, n)
    ensures forall i :: |Starts(buffer, p)| <= i < |Starts(buffer, n)| ==> Starts(buffer, n)[i] > p
    decreases n
  {
    if p < n { StartsPrefix(buffer, p, n - 1); }
  }

  /** Line idx of the cache is the one that position p is on. */
  predicate OnLine(cache: seq<nat>, idx: nat, p: nat)
    requires idx < |cache|
  {
    p >= cache[idx] && (idx + 1 == |cache| || p < cache[idx + 1])
  }

  /** There is one such line, and it is the one the newlines before p say. */
  lemma OnLineExactly(buffer: string, idx: nat, p: nat)
    requires p <= |buffer| && idx < |Starts(buffer, |buffer|)|
    ensures OnLine(Starts(buffer, |buffer|), idx, p) <==> idx == Newlines(buffer, p)
    ensures idx == Newlines(buffer, p) ==> Starts(buffer, |buffer|)[idx] == LineStart(buffer, p)
  {
    var all, few := Starts(buffer, |buffer|), Starts(buffer, p);
    StartsSorted(buffer, |buffer|);
    StartsPrefix(buffer, p, |buffer|);
    hide Starts;
    assert forall i :: 0 <= i < |few| ==> all[i] == few[i];
    StartsSorted(buffer, p);
  }

  class SourceManager {
    var Buffer: string
    var LineStartCache: seq<nat>
    var LastLineIdx: nat

    ghost predicate Valid()
      reads this
    {
      LineStartCache == Starts(Buffer, |Buffer|) && LastLineIdx < |LineStartCache|
    }

    constructor (source: string)
      ensures Valid() && Buffer == source && LastLineIdx == 0
    {
      Buffer := source;
      LineStartCache := [];
      LastLineIdx := 0;
      new;
      BuildLineStartCache();
    }

    method BuildLineStartCache()
      modifies this`LineStartCache, this`LastLineIdx
      ensures Valid() && LastLineIdx == 0
    {
      LastLineIdx := 0;
      LineStartCache := [0];
      var ptr := 0;
      while ptr < |Buffer|
        invariant ptr <= |Buffer| && LineStartCache == Starts(Buffer, ptr) && LastLineIdx == 0
      {
        if Buffer[ptr] == '\n' { LineStartCache := LineStartCache + [ptr + 1]; }
        ptr := ptr + 1;
      }
    }

    /** `std::lower_bound`: the first line that starts at p or later. */
    method LowerBound(p: nat) returns (it: nat)
      requires Sorted(LineStartCache)
      ensures it <= |LineStartCache|
      ensures forall i :: 0 <= i < it ==> LineStartCache[i] < p
      ensures forall i :: it <= i < |LineStartCache| ==> LineStartCache[i] >= p
    {
      it := 0;
      var stop := |LineStartCache|;
      while it < stop
        invariant it <= stop <= |LineStartCache|
        invariant forall i :: 0 <= i < it ==> LineStartCache[i] < p
        invariant forall i :: stop <= i < |LineStartCache| ==> LineStartCache[i] >= p
      {
        var mid := (it + stop) / 2;
        if LineStartCache[mid] < p { it := mid + 1; } else { stop := mid; }
      }
    }

    /** Whatever was asked before, and whichever way finds it, the answer is the line and column
        that counting from the start of the buffer gives. */
    method GetLocation(p: nat) returns (line: nat, column: nat)
      requires Valid() && p <= |Buffer|
      modifies this`LastLineIdx
      ensures Valid() && LastLineIdx == line - 1
      ensures line == 1 + Newlines(Buffer, p) && column == 1 + p - LineStart(Buffer, p)
    {
      hide Starts, Newlines, LineStart, OnLine, Sorted;
      StartsSorted(Buffer, |Buffer|);
      OnLineExactly(Buffer, LastLineIdx, p);
      if OnLine(LineStartCache, LastLineIdx, p) {
        return LastLineIdx + 1, p - LineStartCache[LastLineIdx] + 1;
      }
      if LastLineIdx + 1 < |LineStartCache| {
        OnLineExactly(Buffer, LastLineIdx + 1, p);
        if OnLine(LineStartCache, LastLineIdx + 1, p) {
          LastLineIdx := LastLineIdx + 1;
          return LastLineIdx + 1, p - LineStartCache[LastLineIdx] + 1;
        }
      }
      var it := LowerBound(p);
      BoundLine(LineStartCache, it, p);
      if it != 0 && (it == |LineStartCache| || LineStartCache[it] > p) { it := it - 1; }
      OnLineExactly(Buffer, it, p);
      LastLineIdx := it;
      line := LastLineIdx + 1;
      column := p - LineStartCache[it] + 1;
    }
  }

  /** Stepping back from the lower bound, unless it is the position itself, gives its line. */
  lemma BoundLine(cache: seq<nat>, bound: nat, p: nat)
    requires Sorted(cache) && cache != [] && cache[0] == 0 && bound <= |cache|
    requires forall i :: 0 <= i < bound ==> cache[i] < p
    requires forall i :: bound <= i < |cache| ==> cache[i] >= p
    ensures var it := if bound != 0 && (bound == |cache| || cache[bound] > p) then bound - 1 else bound;
      it < |cache| && OnLine(cache, it, p)
  {
    assert bound + 1 < |cache| ==> cache[bound] < cache[bound + 1];
  }
}
