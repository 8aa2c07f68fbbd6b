/** For any set of strings there is one outside it. */
module FreshNames {

  lemma Longest(s: set<string>) returns (n: nat)
    ensures forall x :: x in s ==> |x| < n
  {
    n := 0;
    var left := s;
    while left != {}
      invariant left <= s && forall x :: x in s && x !in left ==> |x| < n
    {
      var x :| x in left;
      n := if |x| < n then n else |x| + 1;
      left := left - {x};
    }
  }

  lemma UnusedName(s: set<string>) returns (name: string)
    ensures name !in s && name != "" && forall i :: 0 <= i < |name| ==> name[i] == 'x'
  {
    var n := Longest(s);
    name := seq(n + 1, _ => 'x');
  }
}
