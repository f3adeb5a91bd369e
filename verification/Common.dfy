/** Small vocabulary shared by every component: SQL NULL, partial updates, duplicate-free sequences. */
module Common {

  /** A nullable column or an optional field. */
  datatype Option<+T> = None | Some(value: T)

  /** One column of an UPDATE statement: left out of its SET list, or assigned. */
  datatype Column<+T> = Kept | Set(value: T)

  function After<T>(old_: T, c: Column<T>): T {
    if c.Set? then c.value else old_
  }

  /** The members of a sequence, `set(values)` in Python. */
  function Members<T>(s: seq<T>): set<T> {
    set x | x in s
  }

  predicate Distinct<T(==)>(s: seq<T>) {
    forall i, j :: 0 <= i < j < |s| ==> s[i] != s[j]
  }

  lemma {:induction false} MembersSize<T>(s: seq<T>)
    ensures |Members(s)| <= |s|
    ensures |Members(s)| == |s| <==> Distinct(s)
  {
    if s != [] {
      var init, last := s[..|s| - 1], s[|s| - 1];
      MembersSize(init);
      assert s == init + [last];
      assert Members(s) == Members(init) + {last};
      if last in init {
        assert Members(s) == Members(init);
        var i :| 0 <= i < |init| && init[i] == last;
        assert s[i] == s[|s| - 1];
      }
    }
  }
}
