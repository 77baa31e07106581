/** scikit-learn's `LabelEncoder` as src/core/preprocess.py uses it on a column of strings:
    `fit` keeps the sorted distinct values (`np.unique`), `transform` maps a value to its
    position among them. */
module LabelEncoding {
  import opened Strings

  /** A fitted encoder: `classes_`. */
  datatype LabelEncoder = LabelEncoder(classes: seq<string>)

  /** Increasing in Python's string order, hence without repetitions. */
  predicate StrictlySorted(s: seq<string>) {
    forall i, j :: 0 <= i < j < |s| ==> StrLess(s[i], s[j])
  }

  /** Insert `x` into a strictly sorted sequence unless it is already there. */
  function InsertUnique(x: string, s: seq<string>): (r: seq<string>)
    requires StrictlySorted(s)
    ensures StrictlySorted(r)
    ensures forall y :: y in r <==> y in s || y == x
  {
    if s == [] then [x]
    else if x == s[0] then s
    else if StrLess(x, s[0]) then
      assert forall j :: 0 <= j < |s| ==> StrLess(x, s[j]) by {
        forall j | 0 <= j < |s| ensures StrLess(x, s[j]) {
          if j > 0 {
            StrLessTransitive(x, s[0], s[j]);
          }
        }
      }
      [x] + s
    else
      StrLessTotal(x, s[0]);
      var rest := InsertUnique(x, s[1..]);
      assert forall y :: y in s <==> y == s[0] || y in s[1..] by {
        assert s == [s[0]] + s[1..];
      }
      assert forall k :: 0 <= k < |rest| ==> StrLess(s[0], rest[k]) by {
        forall k | 0 <= k < |rest| ensures StrLess(s[0], rest[k]) {
          assert rest[k] in rest;
          if rest[k] != x {
            var m :| 0 <= m < |s[1..]| && s[1..][m] == rest[k];
            assert s[m + 1] == rest[k];
          }
        }
      }
      [s[0]] + rest
  }

  /** `np.unique(values)`: the distinct values in increasing order. */
  function Unique(values: seq<string>): (r: seq<string>)
    ensures StrictlySorted(r)
    ensures forall y :: y in r <==> y in values
  {
    if values == [] then []
    else
      assert forall y :: y in values <==> y == values[0] || y in values[1..] by {
        assert values == [values[0]] + values[1..];
      }
      InsertUnique(values[0], Unique(values[1..]))
  }

  /** `LabelEncoder().fit(values)` */
  function Fit(values: seq<string>): LabelEncoder {
    LabelEncoder(Unique(values))
  }

  /** The position of `x` in `s`. */
  function IndexOf(s: seq<string>, x: string): (r: nat)
    requires x in s
    ensures r < |s| && s[r] == x
  {
    if s[0] == x then 0 else 1 + IndexOf(s[1..], x)
  }

  /** `le.transform([x])[0]` for a value seen by `fit`. */
  function Code(le: LabelEncoder, x: string): nat
    requires x in le.classes
  {
    IndexOf(le.classes, x)
  }

  /** On the values it was fitted on, the encoder gives each distinct value its own code in
      `0 .. number of classes - 1`, and codes follow the string order: equal strings get equal
      codes, and a smaller string a smaller code. */
  lemma FitCodes(values: seq<string>, a: string, b: string)
    requires a in values && b in values
    ensures a in Fit(values).classes && b in Fit(values).classes
    ensures Code(Fit(values), a) < |Fit(values).classes| <= |values|
    ensures Code(Fit(values), a) == Code(Fit(values), b) <==> a == b
    ensures Code(Fit(values), a) < Code(Fit(values), b) <==> StrLess(a, b)
  {
    var le := Fit(values);
    var ca, cb := Code(le, a), Code(le, b);
    UniqueNoLonger(values);
    if ca < cb {
      assert StrLess(a, b);
    } else if cb < ca {
      assert StrLess(b, a);
      StrLessIrreflexive(a);
      if StrLess(a, b) {
        StrLessTransitive(a, b, a);
      }
    } else {
      StrLessIrreflexive(a);
    }
  }

  /** There are no more classes than values. */
  lemma {:induction false} UniqueNoLonger(values: seq<string>)
    ensures |Unique(values)| <= |values|
  {
    if values != [] {
      UniqueNoLonger(values[1..]);
      InsertUniqueLength(values[0], Unique(values[1..]));
    }
  }

  lemma {:induction false} InsertUniqueLength(x: string, s: seq<string>)
    requires StrictlySorted(s)
    ensures |InsertUnique(x, s)| <= |s| + 1
  {
    if s != [] && x != s[0] && !StrLess(x, s[0]) {
      InsertUniqueLength(x, s[1..]);
    }
  }
}
