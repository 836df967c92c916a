/** str.split(',') and ','.join, the two ways between a list and a comma-joined column. */
module Columns {

  predicate NoComma(s: string) {
    ',' !in s
  }

  predicate NoCommas(items: seq<string>) {
    forall x | x in items :: NoComma(x)
  }

  /** s.split(','): never empty; the empty string splits into one empty item. */
  function Split(s: string): (items: seq<string>)
    ensures |items| > 0
  {
    if s == "" then [""]
    else
      var rest := Split(s[1..]);
      if s[0] == ',' then [""] + rest else [[s[0]] + rest[0]] + rest[1..]
  }

  /** ','.join(items) */
  function Join(items: seq<string>): string {
    if items == [] then ""
    else if |items| == 1 then items[0]
    else items[0] + "," + Join(items[1..])
  }

  lemma {:induction false} SplitNoComma(s: string)
    requires NoComma(s)
    ensures Split(s) == [s]
  {
    if s != "" {
      assert forall c | c in s[1..] :: c in s;
      SplitNoComma(s[1..]);
      assert [s[0]] + s[1..] == s;
    }
  }

  lemma {:induction false} SplitAtComma(a: string, b: string)
    requires NoComma(a)
    ensures Split(a + "," + b) == [a] + Split(b)
  {
    var s := a + "," + b;
    if a == "" {
      assert s[1..] == b;
    } else {
      assert forall c | c in a[1..] :: c in a;
      assert s[1..] == a[1..] + "," + b;
      SplitAtComma(a[1..], b);
      assert [a[0]] + a[1..] == a;
    }
  }

  /** Splitting undoes joining, for items without commas. */
  lemma {:induction false} SplitJoin(items: seq<string>)
    requires items != [] && NoCommas(items)
    ensures Split(Join(items)) == items
  {
    if |items| == 1 {
      SplitNoComma(items[0]);
    } else {
      assert forall x | x in items[1..] :: x in items;
      SplitJoin(items[1..]);
      SplitAtComma(items[0], Join(items[1..]));
      assert [items[0]] + items[1..] == items;
    }
  }

  /** Joining undoes splitting, always, and the pieces hold no commas. */
  lemma {:induction false} JoinSplit(s: string)
    ensures Join(Split(s)) == s && NoCommas(Split(s))
  {
    if s != "" {
      JoinSplit(s[1..]);
      var rest := Split(s[1..]);
      if s[0] == ',' {
        assert ([""] + rest)[1..] == rest;
      } else {
        var items := [[s[0]] + rest[0]] + rest[1..];
        assert items[1..] == rest[1..];
        forall x | x in items ensures NoComma(x) {
          if x != items[0] {
            assert x in rest;
          } else {
            assert rest[0] in rest;
          }
        }
        assert [s[0]] + s[1..] == s;
      }
    }
  }

  /** Appending a column text after a comma appends its items. */
  lemma {:induction false} JoinAppend(a: seq<string>, b: seq<string>)
    requires a != [] && b != []
    ensures Join(a + b) == Join(a) + "," + Join(b)
  {
    if |a| == 1 {
      assert (a + b)[1..] == b;
    } else {
      assert (a + b)[1..] == a[1..] + b;
      JoinAppend(a[1..], b);
    }
  }

  lemma {:induction false} SplitLength(a: string, b: string)
    ensures |Split(a + "," + b)| == |Split(a)| + |Split(b)|
  {
    var s := a + "," + b;
    if a == "" {
      assert s[1..] == b;
    } else {
      assert s[1..] == a[1..] + "," + b;
      SplitLength(a[1..], b);
    }
  }

  lemma OnePieceIff(s: string)
    ensures |Split(s)| == 1 <==> NoComma(s)
  {
    JoinSplit(s);
    var items := Split(s);
    assert |items| == 1 ==> Join(items) == items[0] && items[0] in items;
    if NoComma(s) {
      SplitNoComma(s);
    }
  }

  /** The joined text never splits into fewer items, and into as many exactly if no item holds a comma. */
  lemma {:induction false} SameCountIff(items: seq<string>)
    requires items != []
    ensures |Split(Join(items))| >= |items|
    ensures |Split(Join(items))| == |items| <==> NoCommas(items)
  {
    OnePieceIff(items[0]);
    if |items| > 1 {
      SplitLength(items[0], Join(items[1..]));
      SameCountIff(items[1..]);
      assert items == [items[0]] + items[1..];
    }
  }
}
