/** Spreadsheet column names (backend/internal/export/export.go): a bijective base-26 numbering. */
module ColumnNames {
  function Name(i: int): string
    decreases i + 1
  {
    if i < 0 then "" else Name(i / 26 - 1) + [('A' as int + i % 26) as char]
  }

  method ColumnName(i: int) returns (name: string)
    ensures name == Name(i)
  {
    name := "";
    var n := i;
    while n >= 0
      invariant Name(i) == Name(n) + name
      decreases n + 1
    {
      assert Name(n / 26 - 1) + [('A' as int + n % 26) as char] + name
          == Name(n / 26 - 1) + ([('A' as int + n % 26) as char] + name);
      name := [('A' as int + n % 26) as char] + name;
      n := n / 26 - 1;
    }
  }

  predicate Letters(s: string) {
    forall i :: 0 <= i < |s| ==> 'A' <= s[i] <= 'Z'
  }

  /** The column a name stands for; -1 for the empty name. */
  function Index(s: string): (i: int)
    requires Letters(s)
    ensures i >= -1 && (i == -1 <==> s == "")
  {
    if s == "" then -1 else (Index(s[..|s| - 1]) + 1) * 26 + (s[|s| - 1] as int - 'A' as int)
  }

  /** Different columns have different names. */
  lemma {:induction false} IndexOfName(i: int)
    requires i >= 0
    ensures Letters(Name(i)) && Name(i) != "" && Index(Name(i)) == i
    decreases i
  {
    var s := Name(i);
    assert s[..|s| - 1] == Name(i / 26 - 1);
    if i >= 26 {
      IndexOfName(i / 26 - 1);
    }
  }

  /** Every word over A to Z names a column. */
  lemma {:induction false} NameOfIndex(s: string)
    requires Letters(s)
    ensures Name(Index(s)) == s
  {
    if s != "" {
      var n := |s| - 1;
      NameOfIndex(s[..n]);
      var d := s[n] as int - 'A' as int;
      assert Index(s) == (Index(s[..n]) + 1) * 26 + d;
      assert Index(s) / 26 == Index(s[..n]) + 1 && Index(s) % 26 == d;
      assert s == s[..n] + [s[n]];
    }
  }
}
