/**
 * The `assert_equal` builtin of naux-lang (stdlib/test.rs): it compares
 * its first two arguments with value equality and reports the outcome as a
 * Bool; a mismatch is a result, not an error, and the message argument is
 * never read.
 */
module StdTest {
  import opened Wrappers
  import opened VmValue

  function AssertEqual(args: seq<Value>): (r: Result<Value, string>)
    ensures |args| != 3 <==> r == Err("assert_equal(a, b, msg)")
    ensures |args| == 3 ==> r == Ok(Bool(Equals(args[0], args[1])))
  {
    if |args| != 3 then Err("assert_equal(a, b, msg)")
    else if Equals(args[0], args[1]) then Ok(Bool(true))
    else Ok(Bool(false))
  }

  /** The outcome depends on the two compared values only, never on the message. */
  lemma MessageIgnored(a: Value, b: Value, m1: Value, m2: Value)
    ensures AssertEqual([a, b, m1]) == AssertEqual([a, b, m2])
  {
  }

  /** Comparing a value with itself passes, and the order of the two operands does not matter. */
  lemma AssertEqualProperties(a: Value, b: Value, m: Value)
    ensures AssertEqual([a, a, m]) == Ok(Bool(true))
    ensures AssertEqual([a, b, m]) == AssertEqual([b, a, m])
  {
    EqualsReflexive(a);
    if Equals(a, b) {
      EqualsSymmetric(a, b);
    }
    if Equals(b, a) {
      EqualsSymmetric(b, a);
    }
  }
}
