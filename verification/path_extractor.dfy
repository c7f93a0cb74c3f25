/**
 * `walk_path`: the value a dotted attribute path addresses inside a
 * profile, tolerant of missing nodes and of keys that are strings in one
 * provider's answer and symbols in another's.
 */
module PathExtractor {
  import opened Text
  import opened Json

  /**
   * `fragment[seg] || fragment[seg.to_sym]`: the string key wins unless
   * it holds nil or false, then the symbol key is read.
   */
  function Deref(fields: map<Key, Json>, seg: string): (r: Json)
    ensures !Falsy(Lookup(fields, Name(seg))) ==> r == fields[Name(seg)]
    ensures Falsy(Lookup(fields, Name(seg))) ==> r == Lookup(fields, Symbol(seg))
    ensures Falsy(r) <==> Falsy(Lookup(fields, Name(seg))) && Falsy(Lookup(fields, Symbol(seg)))
  {
    var byName := Lookup(fields, Name(seg));
    if Falsy(byName) then Lookup(fields, Symbol(seg)) else byName
  }

  /**
   * `walk_path(fragment, segments)`. Nothing is found on a blank
   * fragment, a blank first segment, an empty path or a fragment that is
   * not a hash; a blank value stops the walk and is returned as it is.
   */
  function WalkPath(fragment: Json, segments: seq<string>): (r: Json)
    ensures |segments| == 0 || BlankString(segments[0]) || Blank(fragment) || !fragment.Hash? ==> r == Nil
    decreases |segments|
  {
    if |segments| == 0 || BlankString(segments[0]) || Blank(fragment) then Nil
    else if !fragment.Hash? then Nil
    else
      var deref := Deref(fragment.fields, segments[0]);
      if Blank(deref) || |segments| == 1 then deref else WalkPath(deref, segments[1..])
  }

  /**
   * Walking a longer path is walking its first part, then the rest from
   * there, unless the first part already ended on a blank value, which
   * the longer walk returns unchanged.
   */
  lemma {:induction false} WalkPathAppend(fragment: Json, p: seq<string>, q: seq<string>)
    requires |p| >= 1 && |q| >= 1
    ensures var mid := WalkPath(fragment, p);
      WalkPath(fragment, p + q) == if Blank(mid) then mid else WalkPath(mid, q)
    decreases |p|
  {
    var pq := p + q;
    assert pq[0] == p[0];
    if BlankString(p[0]) || Blank(fragment) || !fragment.Hash? {
    } else {
      var deref := Deref(fragment.fields, p[0]);
      if Blank(deref) {
      } else if |p| == 1 {
        assert pq[1..] == q;
      } else {
        assert pq[1..] == p[1..] + q;
        WalkPathAppend(deref, p[1..], q);
      }
    }
  }

  /** Every segment of the path is a usable key (not blank). */
  predicate UsablePath(segments: seq<string>) {
    forall k :: 0 <= k < |segments| ==> !BlankString(segments[k])
  }

  /**
   * The tree `fragment` with `v` stored at `segments` under string keys,
   * replacing whatever stood in the way.
   */
  function Put(fragment: Json, segments: seq<string>, v: Json): (r: Json)
    requires |segments| >= 1
    ensures r.Hash? && Name(segments[0]) in r.fields && Present(r)
    decreases |segments|
  {
    var fields := if fragment.Hash? then fragment.fields else map[];
    var child :=
      if |segments| == 1 then v
      else Put(Lookup(fields, Name(segments[0])), segments[1..], v);
    Hash(fields[Name(segments[0]) := child])
  }

  /** A present value stored at a usable path is found there again. */
  lemma {:induction false} WalkPathPut(fragment: Json, segments: seq<string>, v: Json)
    requires |segments| >= 1 && UsablePath(segments) && Present(v)
    ensures WalkPath(Put(fragment, segments, v), segments) == v
    decreases |segments|
  {
    if |segments| > 1 {
      var fields := if fragment.Hash? then fragment.fields else map[];
      WalkPathPut(Lookup(fields, Name(segments[0])), segments[1..], v);
    }
  }

  /**
   * Storing under one first key leaves every path that starts with a
   * different key as it was; where the fragment was not a hash with
   * something in it, that path found nothing and still finds nothing.
   */
  lemma WalkPathPutOther(fragment: Json, segments: seq<string>, v: Json, other: seq<string>)
    requires |segments| >= 1 && |other| >= 1 && other[0] != segments[0]
    ensures WalkPath(Put(fragment, segments, v), other) == WalkPath(fragment, other)
  {
    var put := Put(fragment, segments, v);
    if fragment.Hash? && Present(fragment) {
      assert Deref(put.fields, other[0]) == Deref(fragment.fields, other[0]);
    } else {
      assert Deref(put.fields, other[0]) == Nil;
    }
  }

  /**
   * Key-representation tolerance: a value stored only under the symbol
   * key is found through the string segment.
   */
  lemma SymbolKeyFound(fields: map<Key, Json>, seg: string, v: Json)
    requires !BlankString(seg) && Present(v)
    requires Name(seg) !in fields && Symbol(seg) in fields && fields[Symbol(seg)] == v
    ensures WalkPath(Hash(fields), [seg]) == v
  {
  }

  /**
   * A string key holding `false` does not stop the lookup: the symbol key
   * is read instead, and with no symbol key the walk finds nil.
   */
  lemma FalseFallsThrough(fields: map<Key, Json>, seg: string)
    requires !BlankString(seg)
    requires Name(seg) in fields && fields[Name(seg)] == Bool(false) && Symbol(seg) !in fields
    ensures WalkPath(Hash(fields), [seg]) == Nil
  {
  }
}
