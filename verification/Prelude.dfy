/** The optional and fallible values shared by every module. */
module Prelude {

  datatype Option<+T> = None | Some(value: T) {
    function GetOr(default: T): T {
      match this
      case Some(v) => v
      case None => default
    }
  }

  /** Row identifiers; the text form `str(id)` is identified with the id. */
  type Uuid = nat

  datatype Result<+T, +E> = Ok(value: T) | Err(error: E)

  /** A list without repetition is as long as its set of members is large. */
  lemma {:induction false} CountDistinct<T>(list: seq<T>, members: set<T>)
    requires forall i, j | 0 <= i < j < |list| :: list[i] != list[j]
    requires forall x :: x in list <==> x in members
    ensures |list| == |members|
  {
    if list == [] {
      assert members == {} by {
        assert forall x | x in members :: x in list;
      }
    } else {
      var init, last := list[..|list| - 1], list[|list| - 1];
      assert last in members;
      forall x
        ensures x in init <==> x in members - {last}
      {
        if x in members - {last} {
          var i :| 0 <= i < |list| && list[i] == x;
        }
      }
      CountDistinct(init, members - {last});
    }
  }
}
