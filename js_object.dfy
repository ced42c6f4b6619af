/** The part of JavaScript's object semantics the validators rely on: an error
    object as a map from field to message, and `Object.keys(o).length`. */
module JsObject {

  /** `Object.keys(errors).length`: zero for exactly the empty object. */
  function KeyCount<K, V>(errors: map<K, V>): (n: nat)
    ensures n == 0 <==> errors == map[]
  {
    EmptyIffNoKeys(errors);
    |errors.Keys|
  }

  lemma EmptyIffNoKeys<K, V>(errors: map<K, V>)
    ensures |errors.Keys| == 0 <==> errors == map[]
  {
    if errors != map[] {
      var f :| f in errors;
      assert f in errors.Keys;
    }
  }
}
