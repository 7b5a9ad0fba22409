/** The two tables of the store and the constraints their schema declares.

    Both tables have the same shape: an engine-assigned integer primary key,
    a nullable parent column that references a directory id with
    `ON DELETE CASCADE`, a `NOT NULL` name with `CHECK(TRIM(name) <> '')`, and
    `UNIQUE(parent, name)`. A table is a map from id to row; the directory
    table and the file table are separate maps with independent id spaces. */
module Schema {
  import opened Expect

  const MinInt64: int := -0x8000_0000_0000_0000
  const MaxInt64: int := 0x7FFF_FFFF_FFFF_FFFF

  /** A C# `long`, the type of every id. */
  type Id = x: int | MinInt64 <= x <= MaxInt64

  /** A C# `int`, the type of the search row cap. */
  type Int32 = x: int | -0x8000_0000 <= x <= 0x7FFF_FFFF

  /** The sentinel root directory inserted by the initializer. */
  const RootId: Id := 0
  const RootName: string := "~"

  /** A stored row: `None` is SQL NULL in the parent column. */
  datatype Row = Row(parent: Option<Id>, name: string)

  type Table = map<Id, Row>

  datatype Kind = DirectoryTable | FileTable

  datatype Store = Store(dirs: Table, files: Table) {

    function Rows(kind: Kind): Table {
      match kind
      case DirectoryTable => dirs
      case FileTable => files
    }

    /** Replaces one table and keeps the other. */
    function WithRows(kind: Kind, t: Table): (r: Store)
      ensures r.Rows(kind) == t
      ensures kind == DirectoryTable ==> r.files == files
      ensures kind == FileTable ==> r.dirs == dirs
    {
      match kind
      case DirectoryTable => this.(dirs := t)
      case FileTable => this.(files := t)
    }
  }

  /** The extended result code of a statement that SQLite aborted: one of the
      four constraint violations, or any other engine failure (a busy lock,
      an I/O error, a full id space, a missing table). */
  datatype Fault = ConstraintNotNull | ConstraintCheck | ConstraintUnique | ConstraintForeignKey | EngineFailure

  // ----- names -----

  predicate AllSpaces(s: string) {
    forall i | 0 <= i < |s| :: s[i] == ' '
  }

  /** Drops the leading spaces. */
  function TrimLeading(s: string): (r: string)
    ensures |r| <= |s| && r == s[|s| - |r|..]
    ensures AllSpaces(s[..|s| - |r|])
    ensures r == [] || r[0] != ' '
  {
    if s != [] && s[0] == ' ' then TrimLeading(s[1..]) else s
  }

  /** Drops the trailing spaces. */
  function TrimTrailing(s: string): (r: string)
    ensures |r| <= |s| && r == s[..|r|]
    ensures AllSpaces(s[|r|..])
    ensures r == [] || r[|r| - 1] != ' '
  {
    if s != [] && s[|s| - 1] == ' ' then
      var r := TrimTrailing(s[..|s| - 1]);
      assert s[|r|..] == s[..|s| - 1][|r|..] + [' '];
      r
    else s
  }

  /** SQLite's one-argument `TRIM`: it strips the space character U+0020
      from both ends and nothing else, so tabs and newlines stay. */
  function Trim(s: string): (r: string)
    ensures |r| <= |s|
    ensures r == [] || (r[0] != ' ' && r[|r| - 1] != ' ')
    ensures exists i, j | 0 <= i <= j <= |s| :: r == s[i..j] && AllSpaces(s[..i]) && AllSpaces(s[j..])
  {
    OuterSpacesAroundSlice(s, TrimLeading(s), TrimTrailing(TrimLeading(s)));
    TrimTrailing(TrimLeading(s))
  }

  /** A suffix left after dropping leading spaces, cut down to a prefix by
      dropping trailing spaces, is one contiguous slice of the original with
      only spaces on either side of it. */
  lemma OuterSpacesAroundSlice(s: string, l: string, r: string)
    requires |l| <= |s| && l == s[|s| - |l|..] && AllSpaces(s[..|s| - |l|])
    requires |r| <= |l| && r == l[..|r|] && AllSpaces(l[|r|..])
    ensures exists i, j | 0 <= i <= j <= |s| :: r == s[i..j] && AllSpaces(s[..i]) && AllSpaces(s[j..])
  {
    var i := |s| - |l|;
    var j := i + |r|;
    assert r == s[i..j];
    assert s[j..] == l[|r|..];
  }

  /** The name check of both tables, `TRIM(name) <> ''`. */
  predicate NonBlank(name: string) {
    Trim(name) != ""
  }

  /** Trimming leaves nothing exactly when the name is all spaces. */
  lemma TrimIsEmptyIffAllSpaces(s: string)
    ensures Trim(s) == "" <==> AllSpaces(s)
  {
    var l := TrimLeading(s);
    if !AllSpaces(s) {
      var i :| 0 <= i < |s| && s[i] != ' ';
      assert l[i - (|s| - |l|)] == s[i];
    }
  }

  /** A name is accepted exactly when one of its characters is not a space. */
  lemma NonBlankIffSomeNonSpace(name: string)
    ensures NonBlank(name) <==> exists i | 0 <= i < |name| :: name[i] != ' '
  {
    TrimIsEmptyIffAllSpaces(name);
  }

  /** The empty name and names made of spaces are rejected. */
  lemma BlankNamesRejected()
    ensures !NonBlank("") && !NonBlank(" ") && !NonBlank("   ")
  {
    TrimIsEmptyIffAllSpaces("");
    TrimIsEmptyIffAllSpaces(" ");
    TrimIsEmptyIffAllSpaces("   ");
  }

  /** A tab is not a space, so a name holding only a tab is accepted. */
  lemma TabNameAccepted()
    ensures NonBlank("\t")
  {
    var tab := "\t";
    assert tab[0] != ' ';
    TrimIsEmptyIffAllSpaces(tab);
  }

  // ----- schema constraints -----

  /** `CHECK(TRIM(name) <> '')` on every row. */
  ghost predicate NamesNonBlank(t: Table) {
    forall id | id in t :: NonBlank(t[id].name)
  }

  /** Some row of `t` has parent `parent` and name `name`. */
  predicate HasSibling(t: Table, parent: Id, name: string) {
    exists id | id in t :: t[id].parent == Some(parent) && t[id].name == name
  }

  /** `UNIQUE(parent, name)`. SQL treats NULLs as distinct, so rows whose
      parent is NULL never conflict. */
  ghost predicate SiblingNamesUnique(t: Table) {
    forall i, j | i in t && j in t && i != j && t[i].parent.Some? && t[i].parent == t[j].parent ::
      t[i].name != t[j].name
  }

  /** The foreign key: a parent that is not NULL is the id of a directory. */
  ghost predicate ParentsExist(t: Table, dirs: Table) {
    forall id | id in t && t[id].parent.Some? :: t[id].parent.value in dirs
  }

  /** Every constraint the schema declares, on both tables. */
  ghost predicate Valid(s: Store) {
    && NamesNonBlank(s.dirs) && NamesNonBlank(s.files)
    && SiblingNamesUnique(s.dirs) && SiblingNamesUnique(s.files)
    && ParentsExist(s.dirs, s.dirs) && ParentsExist(s.files, s.dirs)
  }

  /** Under the invariants, a row that clashes on (parent, name) has a valid
      name and an existing parent, so a uniqueness fault never competes with
      a check fault or a foreign-key fault for the same insert. */
  lemma SiblingClashImpliesOtherConstraintsHold(s: Store, kind: Kind, parent: Id, name: string)
    requires Valid(s)
    requires HasSibling(s.Rows(kind), parent, name)
    ensures NonBlank(name) && parent in s.dirs
  {
    var t := s.Rows(kind);
    var id :| id in t && t[id].parent == Some(parent) && t[id].name == name;
  }
}
