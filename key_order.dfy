/**
 * The key order of std::map<std::string, ...>: std::less<std::string>, a lexicographic
 * comparison of character codes in which a proper prefix sorts first. It decides which
 * entry std::map::begin() designates.
 */
module KeyOrder {

  /** a sorts strictly before b. */
  predicate Less(a: string, b: string)
    decreases |a|
  {
    |b| > 0 && (|a| == 0 || a[0] < b[0] || (a[0] == b[0] && Less(a[1..], b[1..])))
  }

  lemma {:induction false} LessAsymmetric(a: string, b: string)
    ensures Less(a, b) ==> !Less(b, a)
    decreases |a|
  {
    if |a| > 0 && |b| > 0 && a[0] == b[0] {
      LessAsymmetric(a[1..], b[1..]);
    }
  }

  lemma {:induction false} LessTransitive(a: string, b: string, c: string)
    requires Less(a, b) && Less(b, c)
    ensures Less(a, c)
    decreases |a|
  {
    if |a| > 0 && a[0] == b[0] && b[0] == c[0] {
      LessTransitive(a[1..], b[1..], c[1..]);
    }
  }

  lemma {:induction false} LessTotal(a: string, b: string)
    requires a != b
    ensures Less(a, b) || Less(b, a)
    decreases |a|
  {
    if |a| > 0 && |b| > 0 && a[0] == b[0] {
      assert a == [a[0]] + a[1..] && b == [b[0]] + b[1..];
      LessTotal(a[1..], b[1..]);
    }
  }

  /** k is the key std::map::begin() designates in a map whose key set is keys. */
  ghost predicate IsFirst(k: string, keys: set<string>) {
    k in keys && forall j :: j in keys && j != k ==> Less(k, j)
  }

  /** A key set has at most one first key. */
  lemma FirstUnique(a: string, b: string, keys: set<string>)
    requires IsFirst(a, keys) && IsFirst(b, keys)
    ensures a == b
  {
    if a != b {
      LessAsymmetric(a, b);
    }
  }

  /** Every non-empty key set has a first key. */
  lemma {:induction false} FirstExists(keys: set<string>)
    requires keys != {}
    ensures exists k :: IsFirst(k, keys)
    decreases |keys|
  {
    var x :| x in keys;
    var rest := keys - {x};
    if rest == {} {
      forall j | j in keys ensures j == x {
        assert j !in rest;
      }
      assert IsFirst(x, keys);
    } else {
      FirstExists(rest);
      var m :| IsFirst(m, rest);
      if Less(x, m) {
        forall j | j in keys && j != x ensures Less(x, j) {
          if j != m {
            LessTransitive(x, m, j);
          }
        }
        assert IsFirst(x, keys);
      } else {
        LessTotal(x, m);
        assert IsFirst(m, keys);
      }
    }
  }

  /** The first key of a non-empty key set. */
  ghost function FirstOf(keys: set<string>): (k: string)
    requires keys != {}
    ensures IsFirst(k, keys)
  {
    FirstExists(keys);
    var k :| IsFirst(k, keys); k
  }

  /**
   * std::map::begin()->first: Dafny's maps are unordered, so the least key is found by
   * visiting every key once.
   */
  method FirstKey(keys: set<string>) returns (k: string)
    requires keys != {}
    ensures k == FirstOf(keys)
  {
    k :| k in keys;
    var todo := keys - {k};
    while todo != {}
      invariant todo <= keys && k in keys && k !in todo
      invariant forall j :: j in keys && j !in todo && j != k ==> Less(k, j)
      decreases |todo|
    {
      var j :| j in todo;
      if Less(j, k) {
        forall i | i in keys && i !in todo && i != j ensures Less(j, i) {
          if i != k {
            LessTransitive(j, k, i);
          }
        }
        k := j;
      } else {
        LessTotal(j, k);
      }
      todo := todo - {j};
    }
    FirstUnique(k, FirstOf(keys), keys);
  }
}
