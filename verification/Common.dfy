module Common {

  datatype Option<+T> = None | Some(value: T)

  function One(b: bool): nat
  {
    if b then 1 else 0
  }

  function Zeros(k: nat): (r: seq<bv8>)
    ensures |r| == k && forall i :: 0 <= i < k ==> r[i] == 0
  {
    seq(k, _ => 0)
  }
}
