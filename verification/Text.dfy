// The parts of Go's strings package that the models need.
module Text {

  // unicode.IsSpace.
  predicate IsSpace(c: char) {
    var n := c as int;
    || 0x09 <= n <= 0x0d || n == 0x20 || n == 0x85 || n == 0xa0
    || n == 0x1680 || 0x2000 <= n <= 0x200a || n == 0x2028 || n == 0x2029
    || n == 0x202f || n == 0x205f || n == 0x3000
  }

  // strings.TrimSpace.
  function TrimSpace(s: string): (r: string)
    ensures |r| <= |s|
    ensures r == "" || (!IsSpace(r[0]) && !IsSpace(r[|r| - 1]))
    ensures s == "" || IsSpace(s[0]) || IsSpace(s[|s| - 1]) || r == s
    decreases |s|
  {
    if s == "" then ""
    else if IsSpace(s[0]) then TrimSpace(s[1..])
    else if IsSpace(s[|s| - 1]) then TrimSpace(s[..|s| - 1])
    else s
  }

  predicate AllSpace(s: string) {
    forall c :: c in s ==> IsSpace(c)
  }

  lemma WiderFront(c: char, front: string, middle: string, back: string)
    requires IsSpace(c) && AllSpace(front)
    ensures [c] + (front + middle + back) == ([c] + front) + middle + back && AllSpace([c] + front)
  {
  }

  lemma WiderBack(front: string, middle: string, back: string, c: char)
    requires IsSpace(c) && AllSpace(back)
    ensures front + middle + back + [c] == front + middle + (back + [c]) && AllSpace(back + [c])
  {
  }

  lemma Ends(s: string)
    requires s != ""
    ensures s == [s[0]] + s[1..] && s == s[..|s| - 1] + [s[|s| - 1]]
  {
  }

  // Trimming cuts white space off both ends and nothing else.
  lemma {:induction false} TrimCutsSpace(s: string) returns (front: string, back: string)
    ensures s == front + TrimSpace(s) + back && AllSpace(front) && AllSpace(back)
    decreases |s|
  {
    hide AllSpace, IsSpace;
    front, back := "", "";
    if s == "" || (!IsSpace(s[0]) && !IsSpace(s[|s| - 1])) {
      NoSpace(s);
    } else if IsSpace(s[0]) {
      Ends(s);
      front, back := TrimCutsSpace(s[1..]);
      WiderFront(s[0], front, TrimSpace(s[1..]), back);
      front := [s[0]] + front;
    } else {
      Ends(s);
      front, back := TrimCutsSpace(s[..|s| - 1]);
      WiderBack(front, TrimSpace(s[..|s| - 1]), back, s[|s| - 1]);
      back := back + [s[|s| - 1]];
    }
  }

  lemma NoSpace(s: string)
    ensures "" + s + "" == s && AllSpace("")
  {
  }

  // Nothing is left exactly of a string of white space.
  lemma BlankIsAllSpace(s: string)
    ensures Blank(s) <==> AllSpace(s)
  {
    var front, back := TrimCutsSpace(s);
    if TrimSpace(s) != "" {
      assert TrimSpace(s)[0] in s;
    }
  }

  predicate Blank(s: string) {
    TrimSpace(s) == ""
  }

  // Byte-wise order of strings: Go's <.
  predicate StringLess(a: string, b: string) {
    if b == "" then false
    else if a == "" then true
    else if a[0] != b[0] then a[0] < b[0]
    else StringLess(a[1..], b[1..])
  }

  lemma {:induction false} StringLessTotal(a: string, b: string)
    ensures a == b || StringLess(a, b) || StringLess(b, a)
  {
    if a != "" && b != "" && a[0] == b[0] {
      StringLessTotal(a[1..], b[1..]);
      if a[1..] == b[1..] {
        assert a == [a[0]] + a[1..] == b;
      }
    }
  }

  lemma {:induction false} StringLessIrreflexive(a: string)
    ensures !StringLess(a, a)
  {
    if a != "" {
      StringLessIrreflexive(a[1..]);
    }
  }

  lemma {:induction false} StringLessTransitive(a: string, b: string, c: string)
    requires StringLess(a, b) && StringLess(b, c)
    ensures StringLess(a, c)
  {
    if a != "" && a[0] == b[0] && b[0] == c[0] {
      StringLessTransitive(a[1..], b[1..], c[1..]);
    }
  }

  // The first difference decides, and a proper prefix comes first.
  lemma {:induction false} StringLessByPosition(a: string, b: string)
    ensures StringLess(a, b) <==>
              exists k :: 0 <= k <= |a| && k < |b| && a[..k] == b[..k] && (k == |a| || a[k] < b[k])
  {
    if a != "" && b != "" && a[0] == b[0] {
      StringLessByPosition(a[1..], b[1..]);
      if StringLess(a[1..], b[1..]) {
        var k :| 0 <= k <= |a[1..]| && k < |b[1..]| && a[1..][..k] == b[1..][..k]
                 && (k == |a[1..]| || a[1..][k] < b[1..][k]);
        assert a[..k + 1] == [a[0]] + a[1..][..k] && b[..k + 1] == [b[0]] + b[1..][..k];
        assert k + 1 == |a| || a[k + 1] < b[k + 1];
      }
      if k :| 0 <= k <= |a| && k < |b| && a[..k] == b[..k] && (k == |a| || a[k] < b[k]) {
        assert k > 0;
        assert a[1..][..k - 1] == a[..k][1..] && b[1..][..k - 1] == b[..k][1..];
        assert k - 1 == |a[1..]| || a[1..][k - 1] < b[1..][k - 1];
      }
    } else if a == "" && b != "" {
      assert a[..0] == b[..0];
    } else if b != "" {
      assert a[..0] == b[..0];
      if k :| 0 <= k <= |a| && k < |b| && a[..k] == b[..k] && (k == |a| || a[k] < b[k]) {
        if k > 0 {
          assert a[..k][0] == b[..k][0];
        }
      }
    }
  }
}
