/** The pure string maps behind the path an exported page is saved under:
    the slash replacement in a page title, the default file name, the folder
    join, the sanitiser used for the retry, and a substring test. */
module Filenames {

  /** `None` stands for JavaScript's `undefined`. */
  datatype Option<T> = None | Some(value: T)

  /** Replaces every character of `chars` in `s` by `repl` and leaves every
      other character where it is: a global `replace` with a character class. */
  function ReplaceAll(s: string, chars: set<char>, repl: char): (r: string)
    ensures |r| == |s|
    ensures forall i :: 0 <= i < |s| ==> r[i] == (if s[i] in chars then repl else s[i])
  {
    if s == [] then [] else [if s[0] in chars then repl else s[0]] + ReplaceAll(s[1..], chars, repl)
  }

  /** Once replaced, no character of the class survives, as long as the
      replacement is not itself in the class. */
  lemma ReplaceAllClears(s: string, chars: set<char>, repl: char)
    requires repl !in chars
    ensures forall i :: 0 <= i < |s| ==> ReplaceAll(s, chars, repl)[i] !in chars
  {
  }

  /** Replacing a second time changes nothing. */
  lemma ReplaceAllIdempotent(s: string, chars: set<char>, repl: char)
    requires repl !in chars
    ensures ReplaceAll(ReplaceAll(s, chars, repl), chars, repl) == ReplaceAll(s, chars, repl)
  {
    var once := ReplaceAll(s, chars, repl);
    var twice := ReplaceAll(once, chars, repl);
    assert |twice| == |once|;
    forall i | 0 <= i < |once| ensures twice[i] == once[i] {
    }
  }

  /** Replacement is character by character, so it distributes over concatenation. */
  lemma ReplaceAllConcat(a: string, b: string, chars: set<char>, repl: char)
    ensures ReplaceAll(a + b, chars, repl) == ReplaceAll(a, chars, repl) + ReplaceAll(b, chars, repl)
  {
    var whole := ReplaceAll(a + b, chars, repl);
    var parts := ReplaceAll(a, chars, repl) + ReplaceAll(b, chars, repl);
    assert |whole| == |parts|;
    forall i | 0 <= i < |whole| ensures whole[i] == parts[i] {
      if i < |a| {
        assert (a + b)[i] == a[i];
      } else {
        assert (a + b)[i] == b[i - |a|];
      }
    }
  }

  /** Forward and back slash, which a page title must not bring into a file name. */
  const Slashes: set<char> := {'/', '\\'}

  /** The title with every `/` and `\` replaced by `-`. */
  function ReplaceSlashes(title: string): (t: string)
    ensures |t| == |title|
    ensures forall i :: 0 <= i < |t| ==> t[i] !in Slashes
    ensures forall i :: 0 <= i < |t| ==> (title[i] in Slashes ==> t[i] == '-') && (title[i] !in Slashes ==> t[i] == title[i])
  {
    ReplaceAllClears(title, Slashes, '-');
    ReplaceAll(title, Slashes, '-')
  }

  /** The file name used when the caller gives none: date, title, `.html`. */
  function DefaultFilename(date: string, title: string): string
  {
    date + " - " + ReplaceSlashes(title) + ".html"
  }

  /** The default file name is the date, then `" - "`, then the title with its
      slashes replaced (same length, slash free), then `.html`; so a name built
      from a slash-free date holds no path separator at all. */
  lemma DefaultFilenameShape(date: string, title: string)
    ensures var name := DefaultFilename(date, title);
      |name| == |date| + 3 + |title| + 5 &&
      name[..|date|] == date &&
      name[|date|..|date| + 3] == " - " &&
      name[|name| - 5..] == ".html" &&
      (forall i :: 0 <= i < |title| ==>
        name[|date| + 3 + i] == (if title[i] in Slashes then '-' else title[i])) &&
      ((forall i :: 0 <= i < |date| ==> date[i] !in Slashes) ==>
        forall i :: 0 <= i < |name| ==> name[i] !in Slashes)
  {
    var name := DefaultFilename(date, title);
    var t := ReplaceSlashes(title);
    assert name == date + " - " + t + ".html";
    forall i | 0 <= i < |title|
      ensures name[|date| + 3 + i] == (if title[i] in Slashes then '-' else title[i])
    {
      assert name[|date| + 3 + i] == t[i];
    }
    if forall i :: 0 <= i < |date| ==> date[i] !in Slashes {
      forall i | 0 <= i < |name| ensures name[i] !in Slashes {
        if i < |date| {
          assert name[i] == date[i];
        } else if i < |date| + 3 {
          assert name[i] == " - "[i - |date|];
        } else if i < |date| + 3 + |t| {
          assert name[i] == t[i - |date| - 3];
        } else {
          assert name[i] == ".html"[i - |date| - 3 - |t|];
        }
      }
    }
  }

  /** The worked example: a title with a slash, dated 2020-01-01. */
  lemma DefaultFilenameExample()
    ensures DefaultFilename("2020-01-01", "A/B") == "2020-01-01 - A-B.html"
  {
    assert ReplaceSlashes("A/B") == "A-B";
  }

  /** `[folder, name].join('/')` when a folder is given, the bare name otherwise. */
  function JoinFolder(folder: Option<string>, name: string): (path: string)
    ensures folder.None? ==> path == name
    ensures folder.Some? ==>
      |path| == |folder.value| + 1 + |name| &&
      path[..|folder.value|] == folder.value &&
      path[|folder.value|] == '/' &&
      path[|folder.value| + 1..] == name
  {
    if folder.Some? then folder.value + "/" + name else name
  }

  /** The characters the retry replaces: `' ? : ~ < > * |`. */
  const Forbidden: set<char> := {'\'', '?', ':', '~', '<', '>', '*', '|'}

  /** The path with every forbidden character replaced by `-`. */
  function Sanitise(path: string): (r: string)
    ensures |r| == |path|
    ensures forall i :: 0 <= i < |r| ==> r[i] !in Forbidden
    ensures forall i :: 0 <= i < |r| ==> (path[i] in Forbidden ==> r[i] == '-') && (path[i] !in Forbidden ==> r[i] == path[i])
  {
    ReplaceAllClears(path, Forbidden, '-');
    ReplaceAll(path, Forbidden, '-')
  }

  /** Sanitising twice is sanitising once. */
  lemma SanitiseIdempotent(path: string)
    ensures Sanitise(Sanitise(path)) == Sanitise(path)
  {
    ReplaceAllIdempotent(path, Forbidden, '-');
  }

  /** Folder separators survive sanitising: the retry targets the folder with
      its own forbidden characters replaced, and the file name likewise. */
  lemma SanitiseJoin(folder: string, name: string)
    ensures Sanitise(JoinFolder(Some(folder), name)) == JoinFolder(Some(Sanitise(folder)), Sanitise(name))
  {
    ReplaceAllConcat(folder, "/", Forbidden, '-');
    ReplaceAllConcat(folder + "/", name, Forbidden, '-');
    assert ReplaceAll("/", Forbidden, '-') == "/";
  }

  /** `s.includes(sub)`: `sub` starts at some position of `s`. */
  function Contains(s: string, sub: string): bool
  {
    sub <= s || (s != [] && Contains(s[1..], sub))
  }

  /** `sub` occurs in `s` starting at index `i`. */
  ghost predicate OccursAt(s: string, sub: string, i: nat)
  {
    i + |sub| <= |s| && s[i..i + |sub|] == sub
  }

  /** A string contains every string that occurs inside it. */
  lemma {:induction false} ContainsAt(s: string, sub: string, i: nat)
    requires OccursAt(s, sub, i)
    ensures Contains(s, sub)
    decreases i
  {
    if i == 0 {
      assert s[..|sub|] == sub;
    } else {
      assert s[1..][i - 1..i - 1 + |sub|] == s[i..i + |sub|];
      ContainsAt(s[1..], sub, i - 1);
    }
  }

  /** Where a string contains `sub`, it occurs at some index. */
  lemma {:induction false} ContainsOccurs(s: string, sub: string) returns (i: nat)
    requires Contains(s, sub)
    ensures OccursAt(s, sub, i)
    decreases |s|
  {
    if sub <= s {
      i := 0;
      assert s[..|sub|] == sub;
    } else {
      var j := ContainsOccurs(s[1..], sub);
      i := j + 1;
      assert s[i..i + |sub|] == s[1..][j..j + |sub|];
    }
  }

  /** `Contains` holds exactly when `sub` occurs at some index of `s`. */
  lemma ContainsIff(s: string, sub: string)
    ensures Contains(s, sub) <==> exists i: nat :: OccursAt(s, sub, i)
  {
    if Contains(s, sub) {
      var i := ContainsOccurs(s, sub);
    }
    forall i: nat ensures OccursAt(s, sub, i) ==> Contains(s, sub) {
      if OccursAt(s, sub, i) {
        ContainsAt(s, sub, i);
      }
    }
  }
}
