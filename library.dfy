/**
 * The library circulation core of the console library management system
 * (LMS/library_management_system.py): books, members (students and faculty) and the
 * library that issues and returns books, keeping both sides of every loan in step.
 *
 * Python's class hierarchy Member <- Student, Faculty becomes one class `Member` whose
 * `kind` says which subclass it is; the polymorphic limits are functions of the kind.
 * The console prompts become method parameters, and each printed message becomes an
 * outcome value.
 */
module Library {
  import opened Wrappers
  import Text

  // ---------------------------------------------------------------------------
  // Lists with repetitions
  // ---------------------------------------------------------------------------

  /** Number of occurrences of `x` in `s` (Python's `list.count`). */
  function Count<T(==)>(s: seq<T>, x: T): nat
  {
    if s == [] then 0 else (if s[0] == x then 1 else 0) + Count(s[1..], x)
  }

  /** A count never exceeds the length, and it is positive exactly for the elements present. */
  lemma {:induction false} CountBound<T>(s: seq<T>, x: T)
    ensures Count(s, x) <= |s|
    ensures Count(s, x) > 0 <==> x in s
  {
    if s != [] {
      CountBound(s[1..], x);
      assert s == [s[0]] + s[1..];
    }
  }

  /** Appending one element adds one occurrence of that element and no other. */
  lemma {:induction false} CountAppend<T>(s: seq<T>, y: T, x: T)
    ensures Count(s + [y], x) == Count(s, x) + (if x == y then 1 else 0)
  {
    if s != [] {
      assert (s + [y])[1..] == s[1..] + [y];
      CountAppend(s[1..], y, x);
    }
  }

  /** Python's `list.remove(x)`: drops the first occurrence of `x`. */
  function RemoveFirst<T(==)>(s: seq<T>, x: T): (r: seq<T>)
    requires x in s
    ensures |r| == |s| - 1
  {
    if s[0] == x then s[1..] else [s[0]] + RemoveFirst(s[1..], x)
  }

  /** Removing `x` takes away exactly one occurrence of `x` and leaves every other count. */
  lemma {:induction false} CountRemoveFirst<T>(s: seq<T>, x: T, y: T)
    requires x in s
    ensures Count(RemoveFirst(s, x), y) == Count(s, y) - (if x == y then 1 else 0)
  {
    if s[0] != x {
      CountRemoveFirst(s[1..], x, y);
      assert ([s[0]] + RemoveFirst(s[1..], x))[1..] == RemoveFirst(s[1..], x);
    }
  }

  /** What is left after removing `x` was already in `s`. */
  lemma {:induction false} RemoveFirstSubset<T>(s: seq<T>, x: T, y: T)
    requires x in s
    ensures y in RemoveFirst(s, x) ==> y in s
  {
    if s[0] != x {
      RemoveFirstSubset(s[1..], x, y);
    }
  }

  // ---------------------------------------------------------------------------
  // Serialised records (`to_dict` / `from_dict`)
  // ---------------------------------------------------------------------------

  /** The values that occur in the dictionaries written to and read from the data file. */
  datatype Field = Str(s: string) | Int(i: int) | StrList(items: seq<string>)

  type Dict = map<string, Field>

  /** A failed read of a dictionary: Python's `KeyError`, or a value of an unexpected kind. */
  datatype DictError = MissingKey(key: string) | WrongType(key: string)

  function GetStr(d: Dict, k: string): Result<string, DictError> {
    if k !in d then Failure(MissingKey(k))
    else if d[k].Str? then Success(d[k].s)
    else Failure(WrongType(k))
  }

  function GetInt(d: Dict, k: string): Result<int, DictError> {
    if k !in d then Failure(MissingKey(k))
    else if d[k].Int? then Success(d[k].i)
    else Failure(WrongType(k))
  }

  function GetList(d: Dict, k: string): Result<seq<string>, DictError> {
    if k !in d then Failure(MissingKey(k))
    else if d[k].StrList? then Success(d[k].items)
    else Failure(WrongType(k))
  }

  /** Every field of a book, as `Book.to_dict` lists them. */
  datatype BookState = BookState(
    bookId: string, title: string, author: string, isbn: string, category: string,
    totalCopies: int, availableCopies: int, issuedTo: seq<string>)

  function EncodeBook(b: BookState): Dict {
    map[
      "book_id" := Str(b.bookId), "title" := Str(b.title), "author" := Str(b.author),
      "isbn" := Str(b.isbn), "category" := Str(b.category),
      "total_copies" := Int(b.totalCopies), "available_copies" := Int(b.availableCopies),
      "issued_to" := StrList(b.issuedTo)]
  }

  function DecodeBook(d: Dict): Result<BookState, DictError> {
    var bookId :- GetStr(d, "book_id");
    var title :- GetStr(d, "title");
    var author :- GetStr(d, "author");
    var isbn :- GetStr(d, "isbn");
    var category :- GetStr(d, "category");
    var total :- GetInt(d, "total_copies");
    var available :- GetInt(d, "available_copies");
    var issuedTo :- GetList(d, "issued_to");
    Success(BookState(bookId, title, author, isbn, category, total, available, issuedTo))
  }

  /** Reading back what `to_dict` wrote gives the same book. */
  lemma BookRoundTrip(b: BookState)
    ensures DecodeBook(EncodeBook(b)) == Success(b)
  {
  }

  /** A book dictionary missing any one of its keys fails with that key's `KeyError`. */
  lemma BookMissingKey(b: BookState, k: string)
    requires k in EncodeBook(b)
    ensures DecodeBook(EncodeBook(b) - {k}) == Failure(MissingKey(k))
  {
  }

  /** The subclass of a member, with the fields only that subclass has. */
  datatype MemberKind =
    | Student(studentId: string, course: string)
    | Faculty(employeeId: string, department: string)

  /** `get_max_books`: 3 for a student, 5 for a faculty member. */
  function MaxBooks(k: MemberKind): nat {
    if k.Student? then 3 else 5
  }

  /** `get_issue_duration`, in days. */
  function IssueDuration(k: MemberKind): nat {
    if k.Student? then 14 else 30
  }

  /** `get_member_type`. */
  function MemberType(k: MemberKind): string {
    if k.Student? then "Student" else "Faculty"
  }

  /** Every field of a member, as `Student.to_dict` and `Faculty.to_dict` list them. */
  datatype MemberState = MemberState(
    memberId: string, name: string, email: string, phone: string,
    issuedBooks: seq<string>, joinDate: string, kind: MemberKind)

  function EncodeMember(m: MemberState): Dict {
    var common := map[
      "member_id" := Str(m.memberId), "name" := Str(m.name), "email" := Str(m.email),
      "phone" := Str(m.phone), "issued_books" := StrList(m.issuedBooks),
      "join_date" := Str(m.joinDate), "member_type" := Str(MemberType(m.kind))];
    match m.kind
    case Student(sid, course) => common["student_id" := Str(sid)]["course" := Str(course)]
    case Faculty(eid, dept) => common["employee_id" := Str(eid)]["department" := Str(dept)]
  }

  /**
   * `Student.from_dict`: the constructor's arguments in order (the four common
   * fields, then the student ID and the course), then the issued books and the
   * join date. `member_type` is not read here.
   */
  function DecodeStudent(d: Dict): Result<MemberState, DictError> {
    var memberId :- GetStr(d, "member_id");
    var name :- GetStr(d, "name");
    var email :- GetStr(d, "email");
    var phone :- GetStr(d, "phone");
    var sid :- GetStr(d, "student_id");
    var course :- GetStr(d, "course");
    var issued :- GetList(d, "issued_books");
    var joinDate :- GetStr(d, "join_date");
    Success(MemberState(memberId, name, email, phone, issued, joinDate, Student(sid, course)))
  }

  /** `Faculty.from_dict`, in the same order with the employee ID and the department. */
  function DecodeFaculty(d: Dict): Result<MemberState, DictError> {
    var memberId :- GetStr(d, "member_id");
    var name :- GetStr(d, "name");
    var email :- GetStr(d, "email");
    var phone :- GetStr(d, "phone");
    var eid :- GetStr(d, "employee_id");
    var dept :- GetStr(d, "department");
    var issued :- GetList(d, "issued_books");
    var joinDate :- GetStr(d, "join_date");
    Success(MemberState(memberId, name, email, phone, issued, joinDate, Faculty(eid, dept)))
  }

  /**
   * The dispatch of `load_data`: a record whose `member_type` is "Student" is read as a
   * student, any other value as a faculty member.
   */
  function LoadMember(d: Dict): (r: Result<MemberState, DictError>)
    ensures "member_type" !in d ==> r == Failure(MissingKey("member_type"))
    ensures "member_type" in d && "member_id" !in d ==> r == Failure(MissingKey("member_id"))
    ensures r.Failure? && r.error.MissingKey? ==> r.error.key !in d
    ensures r.Success? ==> "member_type" in d && (r.value.kind.Student? <==> d["member_type"] == Str("Student"))
  {
    if "member_type" !in d then Failure(MissingKey("member_type"))
    else if d["member_type"] == Str("Student") then DecodeStudent(d)
    else DecodeFaculty(d)
  }

  /** Loading what `to_dict` wrote gives back the same member, of the same subclass. */
  lemma MemberRoundTrip(m: MemberState)
    ensures LoadMember(EncodeMember(m)) == Success(m)
  {
    var d := EncodeMember(m);
    assert d["member_type"] == Str(MemberType(m.kind));
    if m.kind.Student? {
      assert d["member_type"] == Str("Student");
    } else {
      assert d["member_type"] != Str("Student") by {
        assert d["member_type"].s == "Faculty";
        assert "Faculty"[0] != "Student"[0];
      }
    }
  }

  // ---------------------------------------------------------------------------
  // Book
  // ---------------------------------------------------------------------------

  class Book {
    const bookId: string
    const title: string
    const author: string
    const isbn: string
    const category: string
    const totalCopies: int
    var availableCopies: int
    /** Member IDs, one entry per copy on loan, in order of issue. */
    var issuedTo: seq<string>

    /** The copies on the shelf and the copies on loan add up to the copies owned. */
    ghost predicate Conserved()
      reads this
    {
      availableCopies + |issuedTo| == totalCopies
    }

    function State(): BookState
      reads this
    {
      BookState(bookId, title, author, isbn, category, totalCopies, availableCopies, issuedTo)
    }

    /** `Book.to_dict`. */
    function ToDict(): Dict
      reads this
    {
      EncodeBook(State())
    }

    /** A new book has every copy on the shelf and none on loan. */
    constructor (bookId: string, title: string, author: string, isbn: string,
                 category: string, totalCopies: int)
      ensures State() == BookState(bookId, title, author, isbn, category, totalCopies, totalCopies, [])
      ensures Conserved()
    {
      this.bookId := bookId;
      this.title := title;
      this.author := author;
      this.isbn := isbn;
      this.category := category;
      this.totalCopies := totalCopies;
      this.availableCopies := totalCopies;
      this.issuedTo := [];
    }

    /** `Book.from_dict`: a new book carrying exactly the fields of the dictionary. */
    static method FromDict(d: Dict) returns (r: Result<Book, DictError>)
      ensures DecodeBook(d).Failure? ==> r == Failure(DecodeBook(d).error)
      ensures DecodeBook(d).Success? ==> r.Success? && fresh(r.value) && r.value.State() == DecodeBook(d).value
    {
      var st := DecodeBook(d);
      if st.Failure? {
        return Failure(st.error);
      }
      var s := st.value;
      var b := new Book(s.bookId, s.title, s.author, s.isbn, s.category, s.totalCopies);
      b.availableCopies := s.availableCopies;
      b.issuedTo := s.issuedTo;
      return Success(b);
    }

    predicate IsAvailable()
      reads this
    {
      availableCopies > 0
    }

    /** Lends one copy to `memberId` when a copy is on the shelf; otherwise changes nothing. */
    method IssueBook(memberId: string) returns (ok: bool)
      modifies this
      ensures ok == (old(availableCopies) > 0)
      ensures ok ==> availableCopies == old(availableCopies) - 1 && issuedTo == old(issuedTo) + [memberId]
      ensures !ok ==> unchanged(this)
      ensures old(Conserved()) ==> Conserved()
    {
      if IsAvailable() {
        availableCopies := availableCopies - 1;
        issuedTo := issuedTo + [memberId];
        return true;
      }
      return false;
    }

    /** Takes back one copy lent to `memberId`, if there is one; otherwise changes nothing. */
    method ReturnBook(memberId: string) returns (ok: bool)
      modifies this
      ensures ok == (memberId in old(issuedTo))
      ensures ok ==> availableCopies == old(availableCopies) + 1 && issuedTo == RemoveFirst(old(issuedTo), memberId)
      ensures !ok ==> unchanged(this)
      ensures old(Conserved()) ==> Conserved()
    {
      if memberId in issuedTo {
        availableCopies := availableCopies + 1;
        issuedTo := RemoveFirst(issuedTo, memberId);
        return true;
      }
      return false;
    }
  }

  // ---------------------------------------------------------------------------
  // Member, Student, Faculty
  // ---------------------------------------------------------------------------

  class Member {
    const memberId: string
    const name: string
    const email: string
    const phone: string
    /** The date the member joined; the clock reading is passed in. */
    const joinDate: string
    const kind: MemberKind
    /** Book IDs, one entry per copy held, in order of issue. */
    var issuedBooks: seq<string>

    /** A member never holds more books than the limit of their kind. */
    ghost predicate WithinLimit()
      reads this
    {
      |issuedBooks| <= MaxBooks(kind)
    }

    function State(): MemberState
      reads this
    {
      MemberState(memberId, name, email, phone, issuedBooks, joinDate, kind)
    }

    /** `Student.to_dict` / `Faculty.to_dict`. */
    function ToDict(): Dict
      reads this
    {
      EncodeMember(State())
    }

    constructor (memberId: string, name: string, email: string, phone: string,
                 joinDate: string, kind: MemberKind)
      ensures State() == MemberState(memberId, name, email, phone, [], joinDate, kind)
      ensures WithinLimit()
    {
      this.memberId := memberId;
      this.name := name;
      this.email := email;
      this.phone := phone;
      this.joinDate := joinDate;
      this.kind := kind;
      this.issuedBooks := [];
    }

    /** The loader: dispatch on `member_type`, then `Student.from_dict` or `Faculty.from_dict`. */
    static method FromDict(d: Dict) returns (r: Result<Member, DictError>)
      ensures LoadMember(d).Failure? ==> r == Failure(LoadMember(d).error)
      ensures LoadMember(d).Success? ==> r.Success? && fresh(r.value) && r.value.State() == LoadMember(d).value
    {
      var st := LoadMember(d);
      if st.Failure? {
        return Failure(st.error);
      }
      var s := st.value;
      var m := new Member(s.memberId, s.name, s.email, s.phone, s.joinDate, s.kind);
      m.issuedBooks := s.issuedBooks;
      return Success(m);
    }

    predicate CanIssueBook()
      reads this
    {
      |issuedBooks| < MaxBooks(kind)
    }

    /** Records one more book when the member is under the limit; otherwise changes nothing. */
    method IssueBook(bookId: string) returns (ok: bool)
      modifies this
      ensures ok == (|old(issuedBooks)| < MaxBooks(kind))
      ensures issuedBooks == if ok then old(issuedBooks) + [bookId] else old(issuedBooks)
      ensures old(WithinLimit()) ==> WithinLimit()
    {
      if CanIssueBook() {
        issuedBooks := issuedBooks + [bookId];
        return true;
      }
      return false;
    }

    /** Drops one entry for `bookId`, if there is one; otherwise changes nothing. */
    method ReturnBook(bookId: string) returns (ok: bool)
      modifies this
      ensures ok == (bookId in old(issuedBooks))
      ensures issuedBooks == if ok then RemoveFirst(old(issuedBooks), bookId) else old(issuedBooks)
      ensures old(WithinLimit()) ==> WithinLimit()
    {
      if bookId in issuedBooks {
        issuedBooks := RemoveFirst(issuedBooks, bookId);
        return true;
      }
      return false;
    }
  }

  /** Student limits: at most 3 books, for 14 days. */
  lemma StudentLimits(sid: string, course: string)
    ensures MaxBooks(Student(sid, course)) == 3 && IssueDuration(Student(sid, course)) == 14
    ensures MemberType(Student(sid, course)) == "Student"
  {
  }

  /** Faculty limits: at most 5 books, for 30 days. */
  lemma FacultyLimits(eid: string, dept: string)
    ensures MaxBooks(Faculty(eid, dept)) == 5 && IssueDuration(Faculty(eid, dept)) == 30
    ensures MemberType(Faculty(eid, dept)) == "Faculty"
  {
  }

  // ---------------------------------------------------------------------------
  // LibrarySystem
  // ---------------------------------------------------------------------------

  datatype AddOutcome = Added | DuplicateId | InvalidChoice

  datatype IssueOutcome =
    | MemberNotFound | BookNotFound | LimitReached(limit: nat) | NotAvailable
    | Issued(dueInDays: nat) | IssueFailed

  datatype ReturnOutcome =
    | ReturnMemberNotFound | ReturnBookNotFound | NotIssuedToMember | Returned | ReturnFailed

  /** Does `b` match the search `term` (already stripped and lower-cased) under menu `choice`? */
  predicate Matches(b: Book, choice: string, term: string) {
    (choice == "1" && Text.Contains(Text.ToLower(b.title), term))
    || (choice == "2" && Text.Contains(Text.ToLower(b.author), term))
    || (choice == "3" && Text.Contains(Text.ToLower(b.category), term))
  }

  /** What `search_books` reports: an empty library, or the books found (possibly none). */
  datatype SearchOutcome = EmptyLibrary | Found(books: seq<Book>)

  /** The books of `bs` that match, in the same order. */
  function SearchSpec(bs: seq<Book>, choice: string, term: string): (r: seq<Book>)
    ensures |r| <= |bs|
  {
    if bs == [] then []
    else (if Matches(bs[0], choice, term) then [bs[0]] else []) + SearchSpec(bs[1..], choice, term)
  }

  /** `SearchSpec` keeps exactly the matching books. */
  lemma {:induction false} SearchSpecMembers(bs: seq<Book>, choice: string, term: string)
    ensures forall i :: 0 <= i < |SearchSpec(bs, choice, term)| ==>
      SearchSpec(bs, choice, term)[i] in bs && Matches(SearchSpec(bs, choice, term)[i], choice, term)
    ensures forall i :: 0 <= i < |bs| && Matches(bs[i], choice, term) ==> bs[i] in SearchSpec(bs, choice, term)
  {
    if bs != [] {
      SearchSpecMembers(bs[1..], choice, term);
      var r := SearchSpec(bs, choice, term);
      var head := if Matches(bs[0], choice, term) then [bs[0]] else [];
      assert r == head + SearchSpec(bs[1..], choice, term);
      forall i | 0 <= i < |r| ensures r[i] in bs && Matches(r[i], choice, term) {
        if i >= |head| {
          assert r[i] == SearchSpec(bs[1..], choice, term)[i - |head|];
          assert r[i] in bs[1..];
        }
      }
      forall i | 0 <= i < |bs| && Matches(bs[i], choice, term) ensures bs[i] in r {
        if i > 0 {
          assert bs[i] == bs[1..][i - 1];
        }
      }
    }
  }

  /** Each matching book is kept as often as it occurs in `bs`, and no other book is kept. */
  lemma {:induction false} SearchSpecCounts(bs: seq<Book>, choice: string, term: string)
    ensures forall b ::
      multiset(SearchSpec(bs, choice, term))[b] == (if Matches(b, choice, term) then multiset(bs)[b] else 0)
  {
    if bs != [] {
      SearchSpecCounts(bs[1..], choice, term);
      assert bs == [bs[0]] + bs[1..];
    }
  }

  /** One step of a left-to-right scan computing `SearchSpec`: the book at `i` is kept iff it matches. */
  lemma SearchSpecStep(bs: seq<Book>, i: nat, found: seq<Book>, choice: string, term: string)
    requires i < |bs|
    requires found + SearchSpec(bs[i..], choice, term) == SearchSpec(bs, choice, term)
    ensures (if Matches(bs[i], choice, term) then found + [bs[i]] else found)
      + SearchSpec(bs[i + 1..], choice, term) == SearchSpec(bs, choice, term)
  {
    assert bs[i..][1..] == bs[i + 1..];
    if Matches(bs[i], choice, term) {
      assert found + SearchSpec(bs[i..], choice, term)
        == (found + [bs[i]]) + SearchSpec(bs[i + 1..], choice, term);
    }
  }

  class LibrarySystem {
    var books: map<string, Book>
    var members: map<string, Member>
    /** The keys of `books` in insertion order (the iteration order of a Python dict). */
    var bookOrder: seq<string>
    var memberOrder: seq<string>

    /** The dictionaries are keyed by each object's own ID and the order lists list each key once. */
    ghost predicate Valid()
      reads this
    {
      (forall id :: id in books ==> books[id].bookId == id)
      && (forall id :: id in members ==> members[id].memberId == id)
      && (forall i, j :: 0 <= i < j < |bookOrder| ==> bookOrder[i] != bookOrder[j])
      && (forall id :: id in books <==> id in bookOrder)
      && (forall i, j :: 0 <= i < j < |memberOrder| ==> memberOrder[i] != memberOrder[j])
      && (forall id :: id in members <==> id in memberOrder)
    }

    /**
     * Both sides of every loan agree: member `m` holds book `b` as many times as `b` lists
     * `m` as a borrower, and every ID on either side names a known book or member.
     */
    ghost predicate Consistent()
      reads this, books.Values, members.Values
    {
      (forall mid, bid :: mid in members && bid in books ==>
        Count(members[mid].issuedBooks, bid) == Count(books[bid].issuedTo, mid))
      && (forall mid, bid :: mid in members && bid in members[mid].issuedBooks ==> bid in books)
      && (forall bid, mid :: bid in books && mid in books[bid].issuedTo ==> mid in members)
    }

    /** Copy conservation for every book and the loan limit for every member. */
    ghost predicate Bounded()
      reads this, books.Values, members.Values
    {
      (forall bid :: bid in books ==> books[bid].Conserved())
      && (forall mid :: mid in members ==> members[mid].WithinLimit())
    }

    /** A library with no data file: no books and no members. */
    constructor ()
      ensures Valid() && Consistent() && Bounded()
      ensures books == map[] && members == map[]
    {
      books := map[];
      members := map[];
      bookOrder := [];
      memberOrder := [];
    }

    function BookFrame(bookId: string): set<Book>
      reads this
    {
      if bookId in books then {books[bookId]} else {}
    }

    function MemberFrame(memberId: string): set<Member>
      reads this
    {
      if memberId in members then {members[memberId]} else {}
    }

    /** `add_book`: an ID already present is rejected and nothing changes. */
    method AddBook(bookId: string, title: string, author: string, isbn: string,
                   category: string, totalCopies: int) returns (outcome: AddOutcome)
      requires Valid()
      modifies this
      ensures Valid()
      ensures outcome == (if bookId in old(books) then DuplicateId else Added)
      ensures outcome == DuplicateId ==> books == old(books) && bookOrder == old(bookOrder)
      ensures outcome == Added ==>
        && bookId in books && fresh(books[bookId])
        && books[bookId].State() == BookState(bookId, title, author, isbn, category, totalCopies, totalCopies, [])
        && books == old(books)[bookId := books[bookId]]
        && bookOrder == old(bookOrder) + [bookId]
      ensures members == old(members) && memberOrder == old(memberOrder)
      ensures old(Consistent()) ==> Consistent()
      ensures old(Bounded()) ==> Bounded()
    {
      if bookId in books {
        return DuplicateId;
      }
      var b := new Book(bookId, title, author, isbn, category, totalCopies);
      Shelve(b);
      return Added;
    }

    /** Files a new book, with no copies on loan, under its own ID after the existing ones. */
    method Shelve(b: Book)
      requires Valid() && b.bookId !in books && b.issuedTo == [] && b.Conserved()
      modifies this
      ensures Valid()
      ensures books == old(books)[b.bookId := b] && bookOrder == old(bookOrder) + [b.bookId]
      ensures members == old(members) && memberOrder == old(memberOrder)
      ensures old(Consistent()) ==> Consistent()
      ensures old(Bounded()) ==> Bounded()
    {
      if Consistent() {
        forall mid | mid in members ensures Count(members[mid].issuedBooks, b.bookId) == 0 {
          CountBound(members[mid].issuedBooks, b.bookId);
        }
      }
      books := books[b.bookId := b];
      bookOrder := bookOrder + [b.bookId];
    }

    /**
     * `add_member`: an ID already present is rejected first; then menu choice "1" makes a
     * student, "2" a faculty member, and any other choice is rejected. `extra1` and
     * `extra2` are the student ID and course, or the employee ID and department.
     */
    method AddMember(memberId: string, name: string, email: string, phone: string,
                     choice: string, extra1: string, extra2: string, joinDate: string)
      returns (outcome: AddOutcome)
      requires Valid()
      modifies this
      ensures Valid()
      ensures outcome ==
        if memberId in old(members) then DuplicateId
        else if choice != "1" && choice != "2" then InvalidChoice
        else Added
      ensures outcome != Added ==> members == old(members) && memberOrder == old(memberOrder)
      ensures outcome == Added ==>
        && memberId in members && fresh(members[memberId])
        && members[memberId].State() == MemberState(memberId, name, email, phone, [], joinDate,
             if choice == "1" then Student(extra1, extra2) else Faculty(extra1, extra2))
        && members == old(members)[memberId := members[memberId]]
        && memberOrder == old(memberOrder) + [memberId]
      ensures books == old(books) && bookOrder == old(bookOrder)
      ensures old(Consistent()) ==> Consistent()
      ensures old(Bounded()) ==> Bounded()
    {
      if memberId in members {
        return DuplicateId;
      }
      var kind: MemberKind;
      if choice == "1" {
        kind := Student(extra1, extra2);
      } else if choice == "2" {
        kind := Faculty(extra1, extra2);
      } else {
        return InvalidChoice;
      }
      var m := new Member(memberId, name, email, phone, joinDate, kind);
      Enrol(m);
      return Added;
    }

    /** Registers a new member, holding no books, under its own ID after the existing ones. */
    method Enrol(m: Member)
      requires Valid() && m.memberId !in members && m.issuedBooks == [] && m.WithinLimit()
      modifies this
      ensures Valid()
      ensures members == old(members)[m.memberId := m] && memberOrder == old(memberOrder) + [m.memberId]
      ensures books == old(books) && bookOrder == old(bookOrder)
      ensures old(Consistent()) ==> Consistent()
      ensures old(Bounded()) ==> Bounded()
    {
      if Consistent() {
        forall bid | bid in books ensures Count(books[bid].issuedTo, m.memberId) == 0 {
          CountBound(books[bid].issuedTo, m.memberId);
        }
      }
      members := members[m.memberId := m];
      memberOrder := memberOrder + [m.memberId];
    }

    /**
     * The two updates of a successful `issue_book`, book side first: one copy leaves the
     * shelf for `memberId` and the member's list gains `bookId`. Both always succeed here.
     */
    method Lend(memberId: string, bookId: string) returns (ok: bool)
      requires Valid() && memberId in members && bookId in books
      requires members[memberId].CanIssueBook() && books[bookId].IsAvailable()
      modifies members[memberId], books[bookId]
      ensures ok
      ensures books[bookId].issuedTo == old(books[bookId].issuedTo) + [memberId]
      ensures books[bookId].availableCopies == old(books[bookId].availableCopies) - 1
      ensures members[memberId].issuedBooks == old(members[memberId].issuedBooks) + [bookId]
      ensures old(Consistent()) ==> Consistent()
      ensures old(Bounded()) ==> Bounded()
    {
      var member, book := members[memberId], books[bookId];
      ok := book.IssueBook(memberId);
      if ok {
        ok := member.IssueBook(bookId);
      }
      if old(Consistent()) {
        forall mid, bid | mid in members && bid in books
          ensures Count(members[mid].issuedBooks, bid) == Count(books[bid].issuedTo, mid)
        {
          CountAppend(old(member.issuedBooks), bookId, bid);
          CountAppend(old(book.issuedTo), memberId, mid);
        }
      }
    }

    /**
     * `issue_book`: the member must exist, then the book, then the member must be under
     * the limit, then a copy must be on the shelf; only then are both sides updated.
     */
    method IssueBook(memberId: string, bookId: string) returns (outcome: IssueOutcome)
      requires Valid()
      modifies BookFrame(bookId), MemberFrame(memberId)
      ensures outcome ==
        if memberId !in members then MemberNotFound
        else if bookId !in books then BookNotFound
        else if |old(members[memberId].issuedBooks)| >= MaxBooks(members[memberId].kind)
          then LimitReached(MaxBooks(members[memberId].kind))
        else if old(books[bookId].availableCopies) <= 0 then NotAvailable
        else Issued(IssueDuration(members[memberId].kind))
      ensures outcome.Issued? ==>
        && books[bookId].issuedTo == old(books[bookId].issuedTo) + [memberId]
        && books[bookId].availableCopies == old(books[bookId].availableCopies) - 1
        && members[memberId].issuedBooks == old(members[memberId].issuedBooks) + [bookId]
      ensures !outcome.Issued? && bookId in books ==> unchanged(books[bookId])
      ensures !outcome.Issued? && memberId in members ==> unchanged(members[memberId])
      ensures old(Consistent()) ==> Consistent()
      ensures old(Bounded()) ==> Bounded()
    {
      if memberId !in members {
        return MemberNotFound;
      }
      if bookId !in books {
        return BookNotFound;
      }
      var member := members[memberId];
      var book := books[bookId];
      if !member.CanIssueBook() {
        return LimitReached(MaxBooks(member.kind));
      }
      if !book.IsAvailable() {
        return NotAvailable;
      }
      var ok := Lend(memberId, bookId);
      if !ok {
        assert false;
        return IssueFailed;
      }
      return Issued(IssueDuration(member.kind));
    }

    /**
     * The two updates of `return_book`, book side first; the short-circuit `and` leaves the
     * member untouched when the book side fails. In a consistent library it never fails.
     */
    method Restore(memberId: string, bookId: string) returns (ok: bool)
      requires Valid() && memberId in members && bookId in books
      requires bookId in members[memberId].issuedBooks
      modifies members[memberId], books[bookId]
      ensures ok == (memberId in old(books[bookId].issuedTo))
      ensures ok ==>
        && books[bookId].issuedTo == RemoveFirst(old(books[bookId].issuedTo), memberId)
        && books[bookId].availableCopies == old(books[bookId].availableCopies) + 1
        && members[memberId].issuedBooks == RemoveFirst(old(members[memberId].issuedBooks), bookId)
      ensures !ok ==> unchanged(books[bookId]) && unchanged(members[memberId])
      ensures old(Consistent()) ==> ok && Consistent()
      ensures old(Bounded()) ==> Bounded()
    {
      var member, book := members[memberId], books[bookId];
      if Consistent() {
        CountBound(member.issuedBooks, bookId);
        CountBound(book.issuedTo, memberId);
      }
      ok := book.ReturnBook(memberId);
      if ok {
        ok := member.ReturnBook(bookId);
        assert ok;
      }
      if old(Consistent()) {
        forall mid, bid | mid in members && bid in books
          ensures Count(members[mid].issuedBooks, bid) == Count(books[bid].issuedTo, mid)
        {
          CountRemoveFirst(old(member.issuedBooks), bookId, bid);
          CountRemoveFirst(old(book.issuedTo), memberId, mid);
        }
        forall mid, bid | mid in members && bid in members[mid].issuedBooks ensures bid in books {
          RemoveFirstSubset(old(member.issuedBooks), bookId, bid);
        }
        forall bid, mid | bid in books && mid in books[bid].issuedTo ensures mid in members {
          RemoveFirstSubset(old(book.issuedTo), memberId, mid);
        }
      }
    }

    /**
     * `return_book`: the member must exist, then the book, then the book must be on the
     * member's list; then both sides are updated (see `Restore`).
     */
    method ReturnBook(memberId: string, bookId: string) returns (outcome: ReturnOutcome)
      requires Valid()
      modifies BookFrame(bookId), MemberFrame(memberId)
      ensures outcome ==
        if memberId !in members then ReturnMemberNotFound
        else if bookId !in books then ReturnBookNotFound
        else if bookId !in old(members[memberId].issuedBooks) then NotIssuedToMember
        else if memberId !in old(books[bookId].issuedTo) then ReturnFailed
        else Returned
      ensures outcome == Returned ==>
        && books[bookId].issuedTo == RemoveFirst(old(books[bookId].issuedTo), memberId)
        && books[bookId].availableCopies == old(books[bookId].availableCopies) + 1
        && members[memberId].issuedBooks == RemoveFirst(old(members[memberId].issuedBooks), bookId)
      ensures outcome != Returned && bookId in books ==> unchanged(books[bookId])
      ensures outcome != Returned && memberId in members ==> unchanged(members[memberId])
      ensures old(Consistent()) ==> outcome != ReturnFailed && Consistent()
      ensures old(Bounded()) ==> Bounded()
    {
      if memberId !in members {
        return ReturnMemberNotFound;
      }
      if bookId !in books {
        return ReturnBookNotFound;
      }
      if bookId !in members[memberId].issuedBooks {
        return NotIssuedToMember;
      }
      var ok := Restore(memberId, bookId);
      if !ok {
        return ReturnFailed;
      }
      return Returned;
    }

    /** The books in insertion order. */
    function BooksInOrder(): (r: seq<Book>)
      reads this
      requires Valid()
      ensures |r| == |bookOrder|
      ensures forall i :: 0 <= i < |r| ==> r[i] == books[bookOrder[i]]
      ensures forall id :: id in books ==> books[id] in r
    {
      var bs, order := books, bookOrder;
      var r := seq(|order|, i requires 0 <= i < |order| && order[i] in bs => bs[order[i]]);
      assert forall id :: id in bs ==> bs[id] in r by {
        forall id | id in bs ensures bs[id] in r {
          var k :| 0 <= k < |order| && order[k] == id;
          assert r[k] == bs[id];
        }
      }
      r
    }

    /**
     * `search_books`: menu choice "1", "2" or "3" searches titles, authors or categories
     * for the term, case-insensitively; books are listed in insertion order, and any
     * other choice finds nothing. Both inputs arrive already stripped, like every
     * console input of the model; the method lower-cases the term.
     */
    method SearchBooks(choice: string, searchTerm: string) returns (outcome: SearchOutcome)
      requires Valid()
      ensures outcome == if books == map[] then EmptyLibrary
        else Found(SearchSpec(BooksInOrder(), choice, Text.ToLower(searchTerm)))
    {
      if books == map[] {
        return EmptyLibrary;
      }
      var term := Text.ToLower(searchTerm);
      var found := [];
      ghost var all := BooksInOrder();
      var i := 0;
      while i < |bookOrder|
        invariant 0 <= i <= |bookOrder|
        invariant found + SearchSpec(all[i..], choice, term) == SearchSpec(all, choice, term)
      {
        var book := books[bookOrder[i]];
        SearchSpecStep(all, i, found, choice, term);
        if Matches(book, choice, term) {
          found := found + [book];
        }
        i := i + 1;
      }
      assert all[i..] == [];
      return Found(found);
    }

    /** A search lists exactly the books of the library that match. */
    lemma SearchFindsMatches(choice: string, term: string)
      requires Valid()
      ensures forall b :: b in SearchSpec(BooksInOrder(), choice, term) <==>
        b in books.Values && Matches(b, choice, term)
    {
      var all := BooksInOrder();
      SearchSpecMembers(all, choice, term);
      forall b | b in SearchSpec(all, choice, term) ensures b in books.Values {
        var k :| 0 <= k < |all| && all[k] == b;
        assert books[bookOrder[k]] == b;
      }
    }
  }
}
