/** Held-key interpretation: which direction, if any, the player asks for. */
module Keys {

  datatype Option<T> = None | Some(value: T)

  /** The side the actor faces. */
  datatype Direction = Left | Right

  /** The four recognised movement bindings, two per direction. */
  predicate IsMovementKey(key: string) {
    key == "a" || key == "d" || key == "arrowleft" || key == "arrowright"
  }

  /** The bindings that steer to the left. */
  predicate IsLeftKey(key: string) {
    key == "a" || key == "arrowleft"
  }

  /** The held keys in reverse order. */
  function Reverse<T>(s: seq<T>): (r: seq<T>)
    ensures |r| == |s|
    ensures forall i :: 0 <= i < |s| ==> r[i] == s[|s| - 1 - i]
  {
    if |s| == 0 then [] else [s[|s| - 1]] + Reverse(s[..|s| - 1])
  }

  /** The first movement key of `keys`, scanning from the front. */
  function FindMovementKey(keys: seq<string>): (r: Option<string>)
    ensures r.Some? ==> IsMovementKey(r.value)
    ensures r.None? <==> forall i :: 0 <= i < |keys| ==> !IsMovementKey(keys[i])
    ensures forall i :: 0 <= i < |keys| && IsMovementKey(keys[i])
                        && (forall j :: 0 <= j < i ==> !IsMovementKey(keys[j]))
                        ==> r == Some(keys[i])
  {
    if |keys| == 0 then None
    else if IsMovementKey(keys[0]) then Some(keys[0])
    else FindMovementKey(keys[1..])
  }

  /** The movement key that steers: keys are held in the order they were
      pressed, and the most recently pressed movement key wins. */
  function LastMovementKey(held: seq<string>): (r: Option<string>)
    ensures r.Some? ==> IsMovementKey(r.value)
    ensures r.None? <==> forall i :: 0 <= i < |held| ==> !IsMovementKey(held[i])
    ensures forall i :: 0 <= i < |held| && IsMovementKey(held[i])
                        && (forall j :: i < j < |held| ==> !IsMovementKey(held[j]))
                        ==> r == Some(held[i])
  {
    var reversed := Reverse(held);
    assert forall i :: 0 <= i < |held| ==> held[i] == reversed[|held| - 1 - i];
    FindMovementKey(reversed)
  }

  /** The direction a movement key selects; any other key leaves it as it was. */
  function Steer(current: Direction, key: string): (r: Direction)
    ensures IsMovementKey(key) ==> (r == Left <==> IsLeftKey(key))
    ensures !IsMovementKey(key) ==> r == current
  {
    match key
    case "a" => Left
    case "arrowleft" => Left
    case "d" => Right
    case "arrowright" => Right
    case _ => current
  }
}
