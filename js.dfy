/** The few pieces of JavaScript semantics the backend's rules rest on:
    truthiness of optional request fields, `Array.prototype.find` and
    `Array.prototype.slice` with integer arguments. */
module Js {

  datatype Option<T> = None | Some(value: T) {
    function GetOr(default: T): T {
      match this
      case Some(v) => v
      case None => default
    }
  }

  /** `!field` is false exactly when the field is present and not the empty
      string. Fields are modelled as strings or absent; a JSON body may carry
      other values, which this does not cover. */
  predicate Truthy(field: Option<string>): (b: bool)
    ensures b <==> field != None && field != Some("")
    ensures b ==> |field.value| > 0
  {
    field.Some? && field.value != ""
  }

  /** The index of the element `Array.prototype.find` returns: the first one
      satisfying `p`, or none. */
  function FindIndex<T>(s: seq<T>, p: T -> bool): (r: Option<nat>)
    ensures r.Some? ==> r.value < |s| && p(s[r.value])
    ensures r.Some? ==> forall j :: 0 <= j < r.value ==> !p(s[j])
    ensures r.None? <==> forall j :: 0 <= j < |s| ==> !p(s[j])
  {
    if s == [] then None
    else if p(s[0]) then Some(0)
    else match FindIndex(s[1..], p)
      case None => None
      case Some(i) => Some(i + 1)
  }

  /** How `slice` turns a relative index into a position in `[0, len]`:
      negative values count back from the end, everything is clamped. */
  function RelativeIndex(k: int, len: nat): (r: nat)
    ensures r <= len
    ensures 0 <= k ==> r == if k < len then k else len
    ensures k < 0 ==> r == if len + k < 0 then 0 else len + k
  {
    if k < 0 then (if len + k < 0 then 0 else len + k)
    else if k < len then k else len
  }

  /** `s.slice(start, end)`: the elements from the clamped start up to the
      clamped end, empty when the end does not lie after the start. */
  function Slice<T>(s: seq<T>, start: int, end: int): (r: seq<T>)
    ensures var from, to := RelativeIndex(start, |s|), RelativeIndex(end, |s|);
      |r| == (if from < to then to - from else 0) &&
      forall i :: 0 <= i < |r| ==> r[i] == s[from + i]
    ensures start <= end ==> |r| <= end - start
  {
    var from, to := RelativeIndex(start, |s|), RelativeIndex(end, |s|);
    if from < to then s[from..to] else []
  }
}
