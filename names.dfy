/** The table of names that both list_files (dfc.c) and handle_list
    (dfs.c) keep: char files[100][MAX_FILENAME], filled by a linear strcmp
    search and strncpy. */
module NameTable {
  /** Both tables hold at most this many names. */
  const MaxNames := 100
  /** strncpy copies at most MAX_FILENAME - 1 characters of a name. */
  const NameLimit := 255

  /** strncpy(files[count], name, MAX_FILENAME - 1) followed by the
      terminating NUL. */
  function Truncate(name: string): (kept: string)
    ensures |kept| <= NameLimit
    ensures |name| <= NameLimit ==> kept == name
    ensures kept <= name
  {
    if |name| <= NameLimit then name else name[..NameLimit]
  }

  /** One candidate name: kept unless strcmp finds it among the stored
      names or the table is full. */
  function Admit(files: seq<string>, name: string): (r: seq<string>)
    ensures files <= r
    ensures |r| <= if |files| < MaxNames then |files| + 1 else |files|
    ensures name !in files && |files| < MaxNames ==> r == files + [Truncate(name)]
    ensures name in files || |files| >= MaxNames ==> r == files
  {
    if name in files || |files| >= MaxNames then files else files + [Truncate(name)]
  }

  /** No name occurs twice. */
  predicate Distinct(names: seq<string>)
  {
    forall i, j :: 0 <= i < j < |names| ==> names[i] != names[j]
  }

  /** A name short enough to be stored whole keeps the table free of
      duplicates. */
  lemma AdmitDistinct(files: seq<string>, name: string)
    requires Distinct(files) && |name| <= NameLimit
    ensures Distinct(Admit(files, name))
  {
  }

  /** The linear search of both programs: found exactly when some stored
      name compares equal. */
  method Find(files: array<string>, count: nat, name: string) returns (found: bool)
    requires count <= files.Length
    ensures found <==> name in files[..count]
  {
    found := false;
    for j := 0 to count
      invariant found <==> name in files[..j]
    {
      if files[j] == name {
        found := true;
        break;
      }
    }
  }
}
