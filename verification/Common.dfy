/** Small vocabulary shared by the modules: optional values, and the case folding and
    sequence filters that stand for the SQL the broker runs. */
module Common {
  type AgentId = string
  type MsgId = string
  type RoomId = string

  /** A live socket, by identity. */
  type Socket = nat

  datatype Option<+T> = None | Some(value: T)

  /** SQLite's NOCASE collation folds the 26 upper-case ASCII letters and nothing else. */
  function FoldChar(c: char): char {
    if 'A' <= c <= 'Z' then ((c as int) - ('A' as int) + ('a' as int)) as char else c
  }

  function Fold(s: string): string {
    seq(|s|, i requires 0 <= i < |s| => FoldChar(s[i]))
  }

  predicate IsCaseOf(upper: char, lower: char) {
    'A' <= upper <= 'Z' && 'a' <= lower <= 'z' && lower as int - 'a' as int == upper as int - 'A' as int
  }

  /** Equal but for the case of ASCII letters. */
  ghost predicate SameButForCase(a: string, b: string) {
    |a| == |b| && forall i :: 0 <= i < |a| ==> a[i] == b[i] || IsCaseOf(a[i], b[i]) || IsCaseOf(b[i], a[i])
  }

  lemma FoldExactly(a: string, b: string)
    ensures Fold(a) == Fold(b) <==> SameButForCase(a, b)
  {
    if SameButForCase(a, b) {
      assert forall i :: 0 <= i < |a| ==> Fold(a)[i] == Fold(b)[i];
    }
    if Fold(a) == Fold(b) {
      assert |Fold(a)| == |a| && |Fold(b)| == |b|;
      forall i | 0 <= i < |a| ensures a[i] == b[i] || IsCaseOf(a[i], b[i]) || IsCaseOf(b[i], a[i]) {
        assert Fold(a)[i] == FoldChar(a[i]) && Fold(b)[i] == FoldChar(b[i]);
      }
    }
  }

  /** The elements of `s` that are not in `drop`, in order. */
  function Without<T(==)>(s: seq<T>, drop: set<T>): seq<T> {
    if s == [] then []
    else if s[0] in drop then Without(s[1..], drop)
    else [s[0]] + Without(s[1..], drop)
  }

  ghost predicate NoDup<T>(s: seq<T>) {
    forall i, j :: 0 <= i < j < |s| ==> s[i] != s[j]
  }

  lemma {:induction false} WithoutMembers<T>(s: seq<T>, drop: set<T>)
    ensures forall x :: x in Without(s, drop) <==> x in s && x !in drop
    ensures NoDup(s) ==> NoDup(Without(s, drop))
    ensures |Without(s, drop)| <= |s|
  {
    if s != [] {
      WithoutMembers(s[1..], drop);
      assert s == [s[0]] + s[1..];
      var rest := Without(s[1..], drop);
      if NoDup(s) {
        assert NoDup(s[1..]);
        forall j | 0 <= j < |rest| ensures rest[j] != s[0] {
          assert rest[j] in rest;
        }
      }
    }
  }

  lemma {:induction false} WithoutConcat<T>(a: seq<T>, b: seq<T>, drop: set<T>)
    ensures Without(a + b, drop) == Without(a, drop) + Without(b, drop)
  {
    if a == [] {
      assert a + b == b;
    } else {
      WithoutConcat(a[1..], b, drop);
      assert (a + b)[0] == a[0] && (a + b)[1..] == a[1..] + b;
    }
  }

  lemma {:induction false} WithoutNothing<T>(s: seq<T>, drop: set<T>)
    requires forall x :: x in s ==> x !in drop
    ensures Without(s, drop) == s
  {
    if s != [] {
      WithoutNothing(s[1..], drop);
    }
  }
}
