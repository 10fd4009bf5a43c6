/** String handling shared by the exporters: `Replace("\0", string.Empty)`
    and the tab-separated lines written through a StreamWriter. */
module Text {
  import opened Wrappers

  const Tab := '\t'

  /** `s.Replace("\0", string.Empty)`: s without its NUL characters, the
      others kept in order. */
  function StripNul(s: string): (r: string)
    ensures '\0' !in r
    ensures '\0' !in s ==> r == s
  {
    if s == [] then ""
    else
      assert s == [s[0]] + s[1..];
      (if s[0] == '\0' then "" else [s[0]]) + StripNul(s[1..])
  }

  /** Every character other than NUL survives, as often as it occurred. */
  lemma {:induction false} StripNulKeepsOthers(s: string)
    ensures multiset(StripNul(s)) == multiset(s)['\0' := 0]
  {
    if s != [] {
      assert s == [s[0]] + s[1..];
      StripNulKeepsOthers(s[1..]);
    }
  }

  /** Stripping distributes over concatenation, so the kept characters keep their order. */
  lemma {:induction false} StripNulAppend(a: string, b: string)
    ensures StripNul(a + b) == StripNul(a) + StripNul(b)
  {
    if a != [] {
      var head := if a[0] == '\0' then "" else [a[0]];
      assert (a + b)[0] == a[0];
      assert (a + b)[1..] == a[1..] + b;
      assert StripNul(a + b) == head + StripNul(a[1..] + b);
      StripNulAppend(a[1..], b);
      assert StripNul(a) == head + StripNul(a[1..]);
    } else {
      assert a + b == b;
    }
  }

  /** The fields written one after another with a single tab between two
      neighbours and none after the last. */
  function JoinTabs(fields: seq<string>): string {
    if |fields| == 0 then ""
    else if |fields| == 1 then fields[0]
    else JoinTabs(fields[..|fields| - 1]) + [Tab] + fields[|fields| - 1]
  }

  /** A joined line ends with its last field, so it ends in a tab only
      when that field does or is empty. */
  lemma JoinTabsEnd(fields: seq<string>)
    requires |fields| > 0
    ensures var last := fields[|fields| - 1];
            |last| > 0 ==> JoinTabs(fields)[|JoinTabs(fields)| - 1] == last[|last| - 1]
  {
  }

  /** What the writing loop has produced after k of the fields: the first k
      joined, followed by the separator when more fields are to come. */
  function Partial(fields: seq<string>, k: nat): string
    requires k <= |fields|
  {
    JoinTabs(fields[..k]) + (if 0 < k < |fields| then [Tab] else "")
  }

  lemma PartialStep(fields: seq<string>, k: nat)
    requires k < |fields|
    ensures Partial(fields, k) + fields[k] + (if k + 1 != |fields| then [Tab] else "")
            == Partial(fields, k + 1)
  {
    assert fields[..k + 1][..k] == fields[..k];
  }

  /** The header and row loops of the exporters: write each field, then a
      tab unless the running `index` has reached the number of fields. */
  method WriteTabbed(fields: seq<string>) returns (line: string)
    ensures line == JoinTabs(fields)
  {
    line := "";
    var index := 0;
    while index < |fields|
      invariant 0 <= index <= |fields|
      invariant line == Partial(fields, index)
    {
      PartialStep(fields, index);
      line := line + fields[index];
      index := index + 1;
      if index != |fields| {
        line := line + [Tab];
      }
    }
    assert fields[..index] == fields;
  }

  /** The position of the first tab in s. */
  function FirstTab(s: string): (r: Option<nat>)
    ensures r.Some? ==> r.value < |s| && s[r.value] == Tab && Tab !in s[..r.value]
    ensures r.None? ==> Tab !in s
  {
    if s == [] then None
    else if s[0] == Tab then Some(0)
    else match FirstTab(s[1..])
      case None => None
      case Some(k) =>
        assert s[..k + 1] == [s[0]] + s[1..][..k];
        Some(k + 1)
  }

  /** How a reader splits a line at its tabs. */
  function SplitTabs(s: string): (r: seq<string>)
    ensures |r| > 0
    decreases |s|
  {
    match FirstTab(s)
    case None => [s]
    case Some(k) => [s[..k]] + SplitTabs(s[k + 1..])
  }

  lemma {:induction false} JoinTabsCons(fields: seq<string>)
    requires |fields| >= 2
    ensures JoinTabs(fields) == fields[0] + [Tab] + JoinTabs(fields[1..])
    decreases |fields|
  {
    var n := |fields|;
    if n > 2 {
      JoinTabsCons(fields[..n - 1]);
      assert fields[..n - 1][1..] == fields[1..][..n - 2];
    } else {
      assert fields[..1] == [fields[0]];
    }
  }

  /** A line splits back into exactly the fields it was joined from, as long
      as no field holds a tab itself. */
  lemma {:induction false} SplitJoinTabs(fields: seq<string>)
    requires |fields| > 0
    requires forall i :: 0 <= i < |fields| ==> Tab !in fields[i]
    ensures SplitTabs(JoinTabs(fields)) == fields
    decreases |fields|
  {
    if |fields| == 1 {
      assert FirstTab(fields[0]).None?;
    } else {
      JoinTabsCons(fields);
      var s := JoinTabs(fields);
      var k := |fields[0]|;
      var rest := JoinTabs(fields[1..]);
      FirstTabAfter(fields[0], rest);
      assert s[..k] == fields[0] && s[k + 1..] == rest;
      SplitJoinTabs(fields[1..]);
    }
  }

  lemma {:induction false} FirstTabAfter(a: string, b: string)
    requires Tab !in a
    ensures FirstTab(a + [Tab] + b) == Some(|a|)
    decreases |a|
  {
    var s := a + [Tab] + b;
    if a != [] {
      assert s[0] == a[0];
      assert s[1..] == a[1..] + [Tab] + b;
      FirstTabAfter(a[1..], b);
    }
  }

  /** Stripping NULs introduces no character that was not there. */
  lemma StripNulNoNewChars(s: string, c: char)
    requires c in StripNul(s)
    ensures c in s
  {
    StripNulKeepsOthers(s);
    assert multiset(StripNul(s))[c] > 0;
  }

  /** The number of tabs inside the fields themselves. */
  function TabsIn(fields: seq<string>): nat {
    if fields == [] then 0
    else TabsIn(fields[..|fields| - 1]) + multiset(fields[|fields| - 1])[Tab]
  }

  lemma {:induction false} TabsInZero(fields: seq<string>)
    ensures TabsIn(fields) == 0 <==> forall i :: 0 <= i < |fields| ==> Tab !in fields[i]
  {
    if fields != [] {
      var n := |fields| - 1;
      TabsInZero(fields[..n]);
      assert forall i :: 0 <= i < n ==> fields[..n][i] == fields[i];
    }
  }

  lemma {:induction false} JoinTabsCount(fields: seq<string>)
    requires |fields| > 0
    ensures multiset(JoinTabs(fields))[Tab] == |fields| - 1 + TabsIn(fields)
  {
    var n := |fields| - 1;
    if n > 0 {
      JoinTabsCount(fields[..n]);
    } else {
      assert fields[..n] == [];
    }
  }

  lemma {:induction false} SplitTabsCount(s: string)
    ensures |SplitTabs(s)| == multiset(s)[Tab] + 1
    decreases |s|
  {
    match FirstTab(s)
    case None =>
    case Some(k) =>
      assert s == s[..k] + [Tab] + s[k + 1..];
      assert multiset(s[..k])[Tab] == 0;
      SplitTabsCount(s[k + 1..]);
  }

  /** A reader sees one field more for every tab a field carries: the line
      has exactly as many fields as were written iff no field holds a tab. */
  lemma FieldCount(fields: seq<string>)
    requires |fields| > 0
    ensures |SplitTabs(JoinTabs(fields))| == |fields| + TabsIn(fields)
    ensures |SplitTabs(JoinTabs(fields))| == |fields| <==> forall i :: 0 <= i < |fields| ==> Tab !in fields[i]
  {
    JoinTabsCount(fields);
    SplitTabsCount(JoinTabs(fields));
    TabsInZero(fields);
  }
}
