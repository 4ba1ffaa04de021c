/**
 * `scripts/validate-mdx.js`: the build-time check of the blog's MDX files. A file needs a
 * truthy `title`, `date` and `description`, an even number of code fences, and must not end
 * in a fence; the script checks every `.mdx` and `.md` file and fails when any is invalid.
 */
module ValidateMdx {
  import opened Wrappers
  import opened Strings
  import opened Seqs
  import opened Json

  /** What gray-matter returns for a file: the front matter and the body. */
  datatype Parsed = Parsed(data: seq<Field>, content: string)

  /** The outcome of `validateMdxFile`, naming the check that failed. */
  datatype Verdict =
    | Valid
    | MissingFields(fields: seq<string>)
    | UnclosedFence
    | TrailingFence
    /** Reading or parsing the file threw. */
    | Unreadable

  const RequiredFields := ["title", "date", "description"]

  const Fence := "```"

  /** `field => !data[field]`. */
  function Absent(data: seq<Field>): string -> bool {
    (k: string) => !Truthy(Get(data, k))
  }

  /** `requiredFields.filter(field => !data[field])`. */
  function Missing(data: seq<Field>): seq<string> {
    Filter(RequiredFields, Absent(data))
  }

  /** The missing fields are exactly the required fields whose value is falsy. */
  lemma MissingMembers(data: seq<Field>)
    ensures forall k :: k in Missing(data) <==> k in RequiredFields && !Truthy(Get(data, k))
  {
    forall k ensures k in Missing(data) <==> k in RequiredFields && !Truthy(Get(data, k)) {
      FilterIff(RequiredFields, Absent(data), k);
    }
  }

  /** `content.match(/```/g)`'s length: fences found left to right, none overlapping. */
  function CountFences(s: string): (n: nat)
    ensures 3 * n <= |s|
  {
    if |s| < 3 then 0
    else if s[..3] == Fence then 1 + CountFences(s[3..])
    else CountFences(s[1..])
  }

  /** A fence in front adds one to the count. */
  lemma CountFencesFront(t: string)
    ensures CountFences(Fence + t) == 1 + CountFences(t)
  {
    assert (Fence + t)[..3] == Fence && (Fence + t)[3..] == t;
  }

  /** Text without a backtick adds nothing to the count. */
  lemma {:induction false} CountFencesPlain(p: string, t: string)
    requires '`' !in p
    ensures CountFences(p + t) == CountFences(t)
  {
    if |p| > 0 {
      assert (p + t)[1..] == p[1..] + t;
      assert (p + t)[0] == p[0];
      CountFencesPlain(p[1..], t);
      if |p + t| >= 3 {
        assert (p + t)[..3][0] == p[0] && Fence[0] == '`';
        assert (p + t)[..3] != Fence;
        assert CountFences(p + t) == CountFences(p[1..] + t);
      } else {
        assert |t| < 3;
      }
    } else {
      assert p + t == t;
    }
  }

  /** Content without a backtick has no fences. */
  lemma CountFencesNone(s: string)
    requires '`' !in s
    ensures CountFences(s) == 0
  {
    CountFencesPlain(s, "");
    assert s + "" == s;
  }

  /** A file whose required fields are set and whose content has no backtick passes every check. */
  lemma PlainFileValid(data: seq<Field>, content: string)
    requires Truthy(Get(data, "title")) && Truthy(Get(data, "date")) && Truthy(Get(data, "description"))
    requires '`' !in content
    ensures ValidateFile(Some(Parsed(data, content))) == Valid
  {
    MissingMembers(data);
    CountFencesNone(content);
    TrimShape(content);
  }

  /** A code block without backticks inside contributes exactly two fences. */
  lemma CountFencesBlock(code: string, t: string)
    requires '`' !in code
    ensures CountFences(Fence + code + Fence + t) == 2 + CountFences(t)
  {
    assert Fence + code + Fence + t == Fence + (code + (Fence + t));
    CountFencesFront(code + (Fence + t));
    CountFencesPlain(code, Fence + t);
    CountFencesFront(t);
  }

  /** `validateMdxFile`: the three checks in order, the first that fails deciding the verdict. */
  function ValidateFile(file: Option<Parsed>): (v: Verdict)
    ensures v == Unreadable <==> file.None?
  {
    if file.None? then Unreadable
    else
      var missing := Missing(file.value.data);
      var count := CountFences(file.value.content);
      if |missing| > 0 then MissingFields(missing)
      else if count > 0 && count % 2 != 0 then UnclosedFence
      else if EndsWith(Trim(file.value.content), Fence) then TrailingFence
      else Valid
  }

  /**
   * A file is valid exactly when it was read, has every required field, has an even number
   * of fences and does not end in one; otherwise the verdict names the first check that fails.
   */
  lemma ValidateFileCases(file: Option<Parsed>)
    ensures ValidateFile(file) == Valid <==>
              file.Some? && |Missing(file.value.data)| == 0 && CountFences(file.value.content) % 2 == 0
              && !EndsWith(Trim(file.value.content), Fence)
    ensures ValidateFile(file).MissingFields? ==>
              file.Some? && ValidateFile(file).fields == Missing(file.value.data) && |Missing(file.value.data)| > 0
    ensures ValidateFile(file) == UnclosedFence ==>
              file.Some? && |Missing(file.value.data)| == 0 && CountFences(file.value.content) % 2 == 1
    ensures ValidateFile(file) == TrailingFence ==>
              file.Some? && |Missing(file.value.data)| == 0 && CountFences(file.value.content) % 2 == 0
              && EndsWith(Trim(file.value.content), Fence)
  {
  }

  /** A falsy required field, an odd fence count or a trailing fence each make a file invalid. */
  lemma InvalidCases(data: seq<Field>, content: string, k: string)
    ensures k in RequiredFields && !Truthy(Get(data, k)) ==> ValidateFile(Some(Parsed(data, content))) != Valid
    ensures CountFences(content) % 2 == 1 ==> ValidateFile(Some(Parsed(data, content))) != Valid
    ensures EndsWith(Trim(content), Fence) ==> ValidateFile(Some(Parsed(data, content))) != Valid
  {
    ValidateFileCases(Some(Parsed(data, content)));
    MissingMembers(data);
  }

  /** `file.endsWith('.mdx') || file.endsWith('.md')`. */
  predicate IsMdxName(name: string) {
    EndsWith(name, ".mdx") || EndsWith(name, ".md")
  }

  /** `path.join(postsDirectory, file)`. */
  function InDirectory(directory: string): string -> string {
    (name: string) => directory + "/" + name
  }

  /** `getAllMdxFiles`: the MDX and Markdown names of the directory, joined to its path. */
  function MdxFiles(directory: string, names: seq<string>): seq<string> {
    Map(Filter(names, IsMdxName), InDirectory(directory))
  }

  /** Every collected path is that of an MDX or Markdown name of the directory. */
  lemma MdxFilesOnlyMdx(directory: string, names: seq<string>, i: nat)
    requires i < |MdxFiles(directory, names)|
    ensures exists j :: 0 <= j < |names| && IsMdxName(names[j]) && MdxFiles(directory, names)[i] == directory + "/" + names[j]
  {
    var kept := Filter(names, IsMdxName);
    FilterMembers(names, IsMdxName);
    assert kept[i] in names && IsMdxName(kept[i]);
    var j :| 0 <= j < |names| && names[j] == kept[i];
    assert MdxFiles(directory, names)[i] == directory + "/" + names[j];
  }

  /** Every MDX or Markdown name of the directory is collected. */
  lemma MdxFilesComplete(directory: string, names: seq<string>, j: nat)
    requires j < |names| && IsMdxName(names[j])
    ensures directory + "/" + names[j] in MdxFiles(directory, names)
  {
    FilterMembers(names, IsMdxName);
    MapMember(Filter(names, IsMdxName), InDirectory(directory), names[j]);
    assert InDirectory(directory)(names[j]) == directory + "/" + names[j];
  }

  /** Some file of the list fails validation. */
  predicate AnyInvalid(files: seq<string>, read: string -> Option<Parsed>) {
    exists i :: 0 <= i < |files| && ValidateFile(read(files[i])) != Valid
  }

  /**
   * `validateAllMdxFiles` over the files of the list: every file is validated, in order, and
   * the exit code is 1 exactly when one of them is invalid.
   */
  method ValidateAll(files: seq<string>, read: string -> Option<Parsed>) returns (exitCode: int)
    ensures exitCode == (if AnyInvalid(files, read) then 1 else 0)
  {
    var hasErrors := false;
    for i := 0 to |files|
      invariant hasErrors <==> exists j :: 0 <= j < i && ValidateFile(read(files[j])) != Valid
    {
      var verdict := ValidateFile(read(files[i]));
      if verdict != Valid {
        hasErrors := true;
      }
    }
    exitCode := if hasErrors then 1 else 0;
  }

  /**
   * The script as run: `validateAllMdxFiles()` with the directory listing of `getAllMdxFiles`,
   * `None` when `readdirSync` throws. Nothing catches that exception, so Node ends the script
   * with exit code 1 before any file is validated. Otherwise the exit code is 0 exactly when
   * every collected file is valid.
   */
  method ValidateDirectory(directory: string, listing: Option<seq<string>>, read: string -> Option<Parsed>)
    returns (exitCode: int)
    ensures listing.None? ==> exitCode == 1
    ensures listing.Some? ==> exitCode == (if AnyInvalid(MdxFiles(directory, listing.value), read) then 1 else 0)
    ensures exitCode == 0 <==>
              listing.Some? && forall i :: 0 <= i < |MdxFiles(directory, listing.value)| ==>
                ValidateFile(read(MdxFiles(directory, listing.value)[i])) == Valid
  {
    if listing.None? {
      return 1;
    }
    exitCode := ValidateAll(MdxFiles(directory, listing.value), read);
  }
}
