/**
 * A named folder of e-mails kept in the order its sorting method names:
 * "dateAsc", "dateDesc" (the default), "subjectAsc" or "subjectDesc". Any
 * other method leaves the list in insertion order. List.sort is a stable
 * sort, specified here by a stable insertion sort whose result is proved
 * sorted, a permutation of its input, and order-preserving among emails
 * with equal keys.
 */
module Folders {
  import opened JavaLang
  import opened Emails

  datatype SortMode = DateAsc | DateDesc | SubjectAsc | SubjectDesc

  /** The switch of sortEmails: the four recognised method names. */
  function ModeOf(sortingMethod: string): (m: Option<SortMode>)
    ensures m == Some(DateAsc) <==> sortingMethod == "dateAsc"
    ensures m == Some(DateDesc) <==> sortingMethod == "dateDesc"
    ensures m == Some(SubjectAsc) <==> sortingMethod == "subjectAsc"
    ensures m == Some(SubjectDesc) <==> sortingMethod == "subjectDesc"
  {
    if sortingMethod == "dateAsc" then Some(DateAsc)
    else if sortingMethod == "dateDesc" then Some(DateDesc)
    else if sortingMethod == "subjectAsc" then Some(SubjectAsc)
    else if sortingMethod == "subjectDesc" then Some(SubjectDesc)
    else None
  }

  predicate BySubject(sortingMethod: string)
  {
    ModeOf(sortingMethod) == Some(SubjectAsc) || ModeOf(sortingMethod) == Some(SubjectDesc)
  }

  /**
   * Comparator.comparing(Email::getSubject) dereferences both subjects as
   * soon as two emails are compared, and a sort of two or more elements
   * compares every element; sorting by subject is defined only when no
   * subject is null.
   */
  predicate Sortable(sortingMethod: string, emails: seq<Email>)
  {
    BySubject(sortingMethod) && |emails| >= 2 ==> forall i :: 0 <= i < |emails| ==> emails[i].subject.Str?
  }

  /** The subject as a sort key (a null subject never reaches a comparison). */
  function SubjectKey(e: Email): string
  {
    match e.subject
    case Str(s) => s
    case Null => ""
  }

  /** The mode's comparator finds a no later than b (compare(a, b) <= 0). */
  predicate NotAfter(mode: SortMode, a: Email, b: Email)
  {
    match mode
    case DateAsc => a.timestamp <= b.timestamp
    case DateDesc => b.timestamp <= a.timestamp
    case SubjectAsc => CompareStrings(SubjectKey(a), SubjectKey(b)) <= 0
    case SubjectDesc => CompareStrings(SubjectKey(b), SubjectKey(a)) <= 0
  }

  lemma NotAfterTotal(mode: SortMode, a: Email, b: Email)
    ensures NotAfter(mode, a, b) || NotAfter(mode, b, a)
  {
    CompareStringsTotal(SubjectKey(a), SubjectKey(b));
  }

  lemma NotAfterTransitive(mode: SortMode, a: Email, b: Email, c: Email)
    requires NotAfter(mode, a, b) && NotAfter(mode, b, c)
    ensures NotAfter(mode, a, c)
  {
    match mode
    case SubjectAsc => CompareStringsTransitive(SubjectKey(a), SubjectKey(b), SubjectKey(c));
    case SubjectDesc => CompareStringsTransitive(SubjectKey(c), SubjectKey(b), SubjectKey(a));
    case _ =>
  }

  predicate Sorted(mode: SortMode, s: seq<Email>)
  {
    forall i, j :: 0 <= i < j < |s| ==> NotAfter(mode, s[i], s[j])
  }

  /** Inserts x after every element that is not after it (so after its equals). */
  function Insert(mode: SortMode, s: seq<Email>, x: Email): seq<Email>
  {
    if s == [] then [x]
    else if NotAfter(mode, s[|s| - 1], x) then s + [x]
    else Insert(mode, s[..|s| - 1], x) + [s[|s| - 1]]
  }

  /** The stable sort of List.sort under the mode's comparator. */
  function SortBy(mode: SortMode, s: seq<Email>): seq<Email>
  {
    if s == [] then [] else Insert(mode, SortBy(mode, s[..|s| - 1]), s[|s| - 1])
  }

  /** What sortEmails leaves in the list for a given sorting method. */
  function Arrange(sortingMethod: string, s: seq<Email>): seq<Email>
  {
    match ModeOf(sortingMethod)
    case None => s
    case Some(mode) => SortBy(mode, s)
  }

  lemma {:induction false} InsertPermutation(mode: SortMode, s: seq<Email>, x: Email)
    ensures multiset(Insert(mode, s, x)) == multiset(s) + multiset{x}
  {
    if s != [] && !NotAfter(mode, s[|s| - 1], x) {
      InsertPermutation(mode, s[..|s| - 1], x);
      assert s == s[..|s| - 1] + [s[|s| - 1]];
    }
  }

  lemma {:induction false} InsertSorted(mode: SortMode, s: seq<Email>, x: Email)
    requires Sorted(mode, s)
    ensures Sorted(mode, Insert(mode, s, x))
  {
    if s == [] {
    } else if NotAfter(mode, s[|s| - 1], x) {
      var r := s + [x];
      forall i, j | 0 <= i < j < |r| ensures NotAfter(mode, r[i], r[j]) {
        if j == |s| && i < |s| - 1 {
          NotAfterTransitive(mode, s[i], s[|s| - 1], x);
        }
      }
    } else {
      var init, last := s[..|s| - 1], s[|s| - 1];
      InsertSorted(mode, init, x);
      InsertPermutation(mode, init, x);
      NotAfterTotal(mode, last, x);
      var t := Insert(mode, init, x);
      forall k | 0 <= k < |t| ensures NotAfter(mode, t[k], last) {
        assert t[k] in multiset(t);
        if t[k] != x {
          assert t[k] in multiset(init);
          var m :| 0 <= m < |init| && init[m] == t[k];
          assert s[m] == t[k];
        }
      }
    }
  }

  lemma {:induction false} SortPermutation(mode: SortMode, s: seq<Email>)
    ensures multiset(SortBy(mode, s)) == multiset(s)
  {
    if s != [] {
      SortPermutation(mode, s[..|s| - 1]);
      InsertPermutation(mode, SortBy(mode, s[..|s| - 1]), s[|s| - 1]);
      assert s == s[..|s| - 1] + [s[|s| - 1]];
    }
  }

  lemma {:induction false} SortSorted(mode: SortMode, s: seq<Email>)
    ensures Sorted(mode, SortBy(mode, s))
  {
    if s != [] {
      SortSorted(mode, s[..|s| - 1]);
      InsertSorted(mode, SortBy(mode, s[..|s| - 1]), s[|s| - 1]);
    }
  }

  // ---------------------------------------------------------------------------
  // Stability
  // ---------------------------------------------------------------------------

  /** Neither email is after the other: the comparator returns 0. */
  predicate SameKey(mode: SortMode, a: Email, b: Email)
  {
    NotAfter(mode, a, b) && NotAfter(mode, b, a)
  }

  /** The emails of s whose key equals the key of k, in the order of s. */
  function KeyClass(mode: SortMode, s: seq<Email>, k: Email): seq<Email>
  {
    if s == [] then []
    else KeyClass(mode, s[..|s| - 1], k) + (if SameKey(mode, s[|s| - 1], k) then [s[|s| - 1]] else [])
  }

  lemma {:induction false} KeyClassAppend(mode: SortMode, s: seq<Email>, t: seq<Email>, k: Email)
    ensures KeyClass(mode, s + t, k) == KeyClass(mode, s, k) + KeyClass(mode, t, k)
    decreases |t|
  {
    if t != [] {
      assert (s + t)[..|s + t| - 1] == s + t[..|t| - 1];
      KeyClassAppend(mode, s, t[..|t| - 1], k);
    } else {
      assert s + t == s;
    }
  }

  lemma KeyClassSingleton(mode: SortMode, e: Email, k: Email)
    ensures KeyClass(mode, [e], k) == if SameKey(mode, e, k) then [e] else []
  {
    assert [e][..0] == [];
  }

  /** Two emails of k's key class are not strictly ordered. */
  lemma SameKeyNotAfter(mode: SortMode, a: Email, b: Email, k: Email)
    requires SameKey(mode, a, k) && SameKey(mode, b, k)
    ensures NotAfter(mode, a, b)
  {
    NotAfterTransitive(mode, a, k, b);
  }

  lemma {:induction false} InsertKeyClass(mode: SortMode, s: seq<Email>, x: Email, k: Email)
    ensures KeyClass(mode, Insert(mode, s, x), k) ==
      KeyClass(mode, s, k) + (if SameKey(mode, x, k) then [x] else [])
  {
    KeyClassSingleton(mode, x, k);
    if s == [] {
      assert KeyClass(mode, s, k) == [];
    } else if NotAfter(mode, s[|s| - 1], x) {
      KeyClassAppend(mode, s, [x], k);
    } else {
      var init, last := s[..|s| - 1], s[|s| - 1];
      InsertKeyClass(mode, init, x, k);
      InsertKeyClassBefore(mode, init, last, x, k);
    }
  }

  /** Appending b and c in either order agrees when one of them is empty. */
  lemma AppendEmptyCommutes(a: seq<Email>, b: seq<Email>, c: seq<Email>)
    requires b == [] || c == []
    ensures a + b + c == a + c + b
  {
    if b == [] {
      assert a + b == a && a + c + b == a + c;
    } else {
      assert a + c == a && a + b + c == a + b;
    }
  }

  /** The step of InsertKeyClass where x goes before the last element of the list. */
  lemma InsertKeyClassBefore(mode: SortMode, init: seq<Email>, last: Email, x: Email, k: Email)
    requires !NotAfter(mode, last, x)
    requires KeyClass(mode, Insert(mode, init, x), k) ==
      KeyClass(mode, init, k) + (if SameKey(mode, x, k) then [x] else [])
    ensures KeyClass(mode, Insert(mode, init + [last], x), k) ==
      KeyClass(mode, init + [last], k) + (if SameKey(mode, x, k) then [x] else [])
  {
    var s := init + [last];
    assert s[..|s| - 1] == init && s[|s| - 1] == last;
    var xs := if SameKey(mode, x, k) then [x] else [];
    var ls := if SameKey(mode, last, k) then [last] else [];
    KeyClassAppend(mode, Insert(mode, init, x), [last], k);
    KeyClassSingleton(mode, last, k);
    if SameKey(mode, x, k) && SameKey(mode, last, k) {
      SameKeyNotAfter(mode, last, x, k);
    }
    calc {
      KeyClass(mode, Insert(mode, s, x), k);
      KeyClass(mode, Insert(mode, init, x) + [last], k);
      KeyClass(mode, Insert(mode, init, x), k) + ls;
      KeyClass(mode, init, k) + xs + ls;
      { assert xs == [] || ls == []; AppendEmptyCommutes(KeyClass(mode, init, k), xs, ls); }
      KeyClass(mode, init, k) + ls + xs;
      KeyClass(mode, s, k) + xs;
    }
  }

  /** Emails the comparator finds equal keep their relative order. */
  lemma {:induction false} SortStable(mode: SortMode, s: seq<Email>, k: Email)
    ensures KeyClass(mode, SortBy(mode, s), k) == KeyClass(mode, s, k)
  {
    if s != [] {
      SortStable(mode, s[..|s| - 1], k);
      InsertKeyClass(mode, SortBy(mode, s[..|s| - 1]), s[|s| - 1], k);
    }
  }

  /** What sortEmails guarantees: a sorted permutation, stable among equal keys. */
  lemma ArrangeProperties(sortingMethod: string, s: seq<Email>)
    ensures multiset(Arrange(sortingMethod, s)) == multiset(s)
    ensures ModeOf(sortingMethod).None? ==> Arrange(sortingMethod, s) == s
    ensures ModeOf(sortingMethod).Some? ==>
      var mode := ModeOf(sortingMethod).value;
      Sorted(mode, Arrange(sortingMethod, s)) &&
      forall k :: KeyClass(mode, Arrange(sortingMethod, s), k) == KeyClass(mode, s, k)
  {
    if ModeOf(sortingMethod).Some? {
      var mode := ModeOf(sortingMethod).value;
      SortPermutation(mode, s);
      SortSorted(mode, s);
      forall k ensures KeyClass(mode, SortBy(mode, s), k) == KeyClass(mode, s, k) {
        SortStable(mode, s, k);
      }
    }
  }

  /** Removing one element keeps a sorted list sorted. */
  lemma RemoveKeepsSorted(mode: SortMode, s: seq<Email>, index: int)
    requires Sorted(mode, s) && 0 <= index < |s|
    ensures Sorted(mode, s[..index] + s[index + 1..])
  {
    var r := s[..index] + s[index + 1..];
    forall i, j | 0 <= i < j < |r| ensures NotAfter(mode, r[i], r[j]) {
      var i' := if i < index then i else i + 1;
      var j' := if j < index then j else j + 1;
      assert r[i] == s[i'] && r[j] == s[j'];
    }
  }

  // ---------------------------------------------------------------------------
  // The Folder object
  // ---------------------------------------------------------------------------

  class Folder {
    const name: string
    var emails: seq<Email>
    var sortingMethod: string

    /** A folder with a recognised sorting method holds its emails in that order. */
    ghost predicate Valid()
      reads this
    {
      ModeOf(sortingMethod).Some? ==> Sorted(ModeOf(sortingMethod).value, emails)
    }

    constructor (name: string)
      ensures this.name == name && emails == [] && sortingMethod == "dateDesc"
      ensures Valid()
    {
      this.name := name;
      emails := [];
      sortingMethod := "dateDesc";
    }

    /** Appends the email and re-sorts the folder. */
    method AddEmail(email: Email)
      requires Sortable(sortingMethod, emails + [email])
      modifies this
      ensures emails == Arrange(sortingMethod, old(emails) + [email])
      ensures sortingMethod == old(sortingMethod)
      ensures Valid()
    {
      emails := emails + [email];
      SortEmails();
    }

    /** ArrayList.remove(index): the removed email, or None where Java throws. */
    method RemoveEmail(index: int) returns (removed: Option<Email>)
      modifies this
      ensures 0 <= index < |old(emails)| ==>
        removed == Some(old(emails)[index]) && emails == old(emails)[..index] + old(emails)[index + 1..]
      ensures !(0 <= index < |old(emails)|) ==> removed == None && emails == old(emails)
      ensures sortingMethod == old(sortingMethod)
      ensures old(Valid()) ==> Valid()
    {
      if 0 <= index < |emails| {
        removed := Some(emails[index]);
        if ModeOf(sortingMethod).Some? && Valid() {
          RemoveKeepsSorted(ModeOf(sortingMethod).value, emails, index);
        }
        emails := emails[..index] + emails[index + 1..];
      } else {
        removed := None;
      }
    }

    method SortEmails()
      requires Sortable(sortingMethod, emails)
      modifies this
      ensures emails == Arrange(sortingMethod, old(emails))
      ensures sortingMethod == old(sortingMethod)
      ensures Valid()
    {
      match ModeOf(sortingMethod)
      case None =>
      case Some(mode) =>
        SortSorted(mode, emails);
        emails := SortBy(mode, emails);
    }

    method SetSortingMethod(sortingMethod: string)
      requires Sortable(sortingMethod, emails)
      modifies this
      ensures this.sortingMethod == sortingMethod
      ensures emails == Arrange(sortingMethod, old(emails))
      ensures Valid()
    {
      this.sortingMethod := sortingMethod;
      SortEmails();
    }
  }
}
