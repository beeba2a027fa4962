/** Post file names carry an ordering prefix: `003-my-first-post.md`. The index
    task derives each post's slug from the file name (gulpfile.js:174-177), the
    posts task strips the prefix from each page's name (gulpfile.js:258-262) and
    the index page is renamed to `index.html` (gulpfile.js:199-202). */
module Slugs {
  import opened JsStrings
  import opened Files

  const Hyphen: string := "-"
  const MarkdownExt: string := ".md"

  /** The shared prefix stripping of the slug and of the post rename: the text
      after the first hyphen, or nothing when the name has none. The script
      writes it as `name.split('-')`, drop the first piece, `.join('-')`;
      `DropOrderingPrefixIsSplitJoin` proves the two agree. */
  function DropOrderingPrefix(name: string): (rest: string)
    ensures |rest| < |name| || rest == ""
  {
    if name == [] then []
    else if name[0] == '-' then name[1..]
    else DropOrderingPrefix(name[1..])
  }

  /** The stripped name is what follows the first occurrence of `-`. */
  lemma {:induction false} DropOrderingPrefixAfterFirstHyphen(name: string)
    ensures DropOrderingPrefix(name) ==
      var i := IndexOf(name, Hyphen); if i == -1 then "" else name[i + 1..]
  {
    if name != [] {
      IndexOfStep(name, Hyphen);
      assert OccursAt(name, Hyphen, 0) <==> name[0] == '-' by {
        assert name[0..1] == [name[0]];
      }
      if name[0] != '-' {
        DropOrderingPrefixAfterFirstHyphen(name[1..]);
        var i := IndexOf(name[1..], Hyphen);
        if i != -1 {
          assert name[1..][i + 1..] == name[i + 2..];
        }
      }
    }
  }

  /** `name.split('-')`, `shift()`, `join('-')` is the prefix stripping above. */
  lemma DropOrderingPrefixIsSplitJoin(name: string)
    ensures Join(Split(name, Hyphen)[1..], Hyphen) == DropOrderingPrefix(name)
  {
    JoinTailOfSplit(name, Hyphen);
    DropOrderingPrefixAfterFirstHyphen(name);
  }

  /** `s` up to its first `.md`, or the whole of `s` when it holds none. */
  function CutAtMarkdownExt(s: string): (head: string)
    ensures |head| <= |s|
  {
    if |s| < |MarkdownExt| then s
    else if s[..|MarkdownExt|] == MarkdownExt then []
    else [s[0]] + CutAtMarkdownExt(s[1..])
  }

  /** The cut ends where the first occurrence of `.md` starts. */
  lemma {:induction false} CutAtFirstMarkdownExt(s: string)
    ensures CutAtMarkdownExt(s) ==
      var i := IndexOf(s, MarkdownExt); if i == -1 then s else s[..i]
  {
    if |s| < |MarkdownExt| {
      assert IndexOf(s, MarkdownExt) == -1;
    } else {
      IndexOfStep(s, MarkdownExt);
      if s[..|MarkdownExt|] != MarkdownExt {
        CutAtFirstMarkdownExt(s[1..]);
        var i := IndexOf(s[1..], MarkdownExt);
        if i != -1 {
          assert [s[0]] + s[1..][..i] == s[..i + 1];
        } else {
          assert [s[0]] + s[1..] == s;
        }
      }
    }
  }

  /** The slug of a post's file name: the name without its ordering prefix, cut
      at its first `.md` wherever it stands. The script writes the cut as
      `.split('.md')[0]`; `SlugIsSplitFirstPiece` proves the two agree. */
  function Slug(baseName: string): string
  {
    CutAtMarkdownExt(DropOrderingPrefix(baseName))
  }

  /** The slug is the first piece of splitting the stripped name on `.md`; so it
      never contains `.md` and it starts the stripped name. */
  lemma SlugIsSplitFirstPiece(baseName: string)
    ensures Slug(baseName) == Split(DropOrderingPrefix(baseName), MarkdownExt)[0]
    ensures IndexOf(Slug(baseName), MarkdownExt) == -1
    ensures IsPrefix(Slug(baseName), DropOrderingPrefix(baseName))
  {
    CutAtFirstMarkdownExt(DropOrderingPrefix(baseName));
  }

  /** The posts task's rename: the prefix dropped from the base name, directory
      and extension untouched. */
  function RenamePost(p: PathParts): (q: PathParts)
    ensures q.dirname == p.dirname && q.extname == p.extname
    ensures |q.basename| < |p.basename| || q.basename == ""
  {
    p.(basename := DropOrderingPrefix(p.basename))
  }

  /** The index task's rename: whatever the file was called, it becomes
      `index.html` in the same directory. */
  function RenameIndex(p: PathParts): (q: PathParts)
    ensures q.dirname == p.dirname && FullBaseName(q) == "index.html"
  {
    p.(basename := "index", extname := ".html")
  }

  // ---------------------------------------------------------------------
  // Properties of the slug and of the renames
  // ---------------------------------------------------------------------

  /** Where a string contains no `c` at all, searching for `c` finds nothing. */
  lemma AbsentCharNotFound(s: string, c: char, t: string)
    requires c !in s && |t| > 0 && t[0] == c
    ensures IndexOf(s, t) == -1
  {
  }

  /** The first `-` of `prefix + "-" + rest` is the one after a hyphen-free prefix. */
  lemma FirstHyphen(prefix: string, rest: string)
    requires '-' !in prefix
    ensures IndexOf(prefix + Hyphen + rest, Hyphen) == |prefix|
  {
    var s := prefix + Hyphen + rest;
    assert OccursAt(s, Hyphen, |prefix|);
    forall j: nat | j < |prefix| ensures !OccursAt(s, Hyphen, j) {
      assert s[j..j + 1] == [prefix[j]];
    }
  }

  /** `.md` cannot straddle the end of a stem: its first character `.` differs
      from its other two, so the first `.md` of `stem + ".md" + tail` is the one
      after the stem whenever the stem holds none. */
  lemma FirstMarkdownExt(stem: string, tail: string)
    requires IndexOf(stem, MarkdownExt) == -1
    ensures IndexOf(stem + MarkdownExt + tail, MarkdownExt) == |stem|
  {
    var s := stem + MarkdownExt + tail;
    assert OccursAt(s, MarkdownExt, |stem|);
    forall j: nat | j < |stem| ensures !OccursAt(s, MarkdownExt, j) {
      if j + 3 <= |stem| {
        assert s[j..j + 3] == stem[j..j + 3];
        assert !OccursAt(stem, MarkdownExt, j);
      } else {
        assert s[j..j + 3][|stem| - j] == '.';
        assert MarkdownExt[|stem| - j] != '.';
      }
    }
  }

  /** A name without any `-` yields the empty slug, since the only piece of the
      split is the one dropped. */
  lemma SlugWithoutHyphen(baseName: string)
    requires '-' !in baseName
    ensures Slug(baseName) == ""
  {
    AbsentCharNotFound(baseName, '-', Hyphen);
    DropOrderingPrefixAfterFirstHyphen(baseName);
  }

  /** The slug of `<prefix>-<stem>.md<tail>` is `<stem>`: the ordering prefix and
      its delimiter go, every later `-` stays, and the name is cut at its first
      `.md`, so whatever follows it goes too. */
  lemma {:induction false} SlugCutsAtFirstMarkdownExt(prefix: string, stem: string, tail: string)
    requires '-' !in prefix
    requires IndexOf(stem, MarkdownExt) == -1
    ensures Slug(prefix + Hyphen + stem + MarkdownExt + tail) == stem
  {
    var name := prefix + Hyphen + stem + MarkdownExt + tail;
    assert name == prefix + Hyphen + (stem + MarkdownExt + tail);
    FirstHyphen(prefix, stem + MarkdownExt + tail);
    DropOrderingPrefixAfterFirstHyphen(name);
    assert DropOrderingPrefix(name) == stem + MarkdownExt + tail;
    FirstMarkdownExt(stem, tail);
    CutAtFirstMarkdownExt(stem + MarkdownExt + tail);
  }

  /** The slug of `<prefix>-<stem>.md` is `<stem>`. */
  lemma SlugOfPostName(prefix: string, stem: string)
    requires '-' !in prefix
    requires IndexOf(stem, MarkdownExt) == -1
    ensures Slug(prefix + Hyphen + stem + MarkdownExt) == stem
  {
    assert prefix + Hyphen + stem + MarkdownExt == prefix + Hyphen + stem + MarkdownExt + "";
    SlugCutsAtFirstMarkdownExt(prefix, stem, "");
  }

  /** The posts task names the page for `<prefix>-<rest>` as `<rest>`, keeping
      every later `-`. */
  lemma RenamePostOfPrefixed(prefix: string, rest: string, p: PathParts)
    requires '-' !in prefix && p.basename == prefix + Hyphen + rest
    ensures RenamePost(p) == p.(basename := rest)
  {
    FirstHyphen(prefix, rest);
    DropOrderingPrefixAfterFirstHyphen(p.basename);
  }

  /** The slug the index links to is the base name of the page the posts task
      writes for the same source file: for `<b>.md` the page is renamed to
      `DropOrderingPrefix(b)`, and the slug is exactly that. */
  lemma {:induction false} SlugMatchesPostPage(b: string)
    requires IndexOf(b, MarkdownExt) == -1
    ensures Slug(b + MarkdownExt) == DropOrderingPrefix(b)
  {
    var name := b + MarkdownExt;
    var i := IndexOf(b, Hyphen);
    DropOrderingPrefixAfterFirstHyphen(b);
    if i == -1 {
      AbsentMd(b);
      assert '-' !in name;
      SlugWithoutHyphen(name);
    } else {
      assert OccursAt(b, Hyphen, i) && b[i] == '-';
      var prefix, stem := b[..i], b[i + 1..];
      assert b == prefix + Hyphen + stem;
      assert '-' !in prefix by {
        forall j | 0 <= j < |prefix| ensures prefix[j] != '-' {
          assert !OccursAt(b, Hyphen, j);
          assert b[j..j + 1] == [b[j]];
        }
      }
      NoMdInSuffix(b, i + 1);
      assert name == prefix + Hyphen + stem + MarkdownExt;
      SlugOfPostName(prefix, stem);
      FirstHyphen(prefix, stem);
    }
  }

  /** A `-` in `b + ".md"` lies in `b`. */
  lemma AbsentMd(b: string)
    requires IndexOf(b, Hyphen) == -1
    ensures '-' !in b + MarkdownExt
  {
    if '-' in b {
      var j :| 0 <= j < |b| && b[j] == '-';
      assert b[j..j + 1] == Hyphen;
      assert OccursAt(b, Hyphen, j);
    }
  }

  /** A suffix of a string without `.md` has none either. */
  lemma NoMdInSuffix(b: string, k: nat)
    requires k <= |b| && IndexOf(b, MarkdownExt) == -1
    ensures IndexOf(b[k..], MarkdownExt) == -1
  {
    var r := IndexOf(b[k..], MarkdownExt);
    if r != -1 {
      assert b[k..][r..r + 3] == b[k + r..k + r + 3];
      assert OccursAt(b, MarkdownExt, k + r);
    }
  }

  /** The worked example: `003-my-first-post.md` has slug `my-first-post`. */
  lemma FirstPostSlugExample(name: string)
    requires name == "003-my-first-post.md"
    ensures Slug(name) == "my-first-post"
  {
    assert name == "003" + Hyphen + "my-first-post" + MarkdownExt;
    AbsentCharNotFound("my-first-post", '.', MarkdownExt);
    SlugOfPostName("003", "my-first-post");
  }

  /** The page `003-my-first-post.html` is renamed to `my-first-post.html`. */
  lemma FirstPostRenameExample()
    ensures RenamePost(PathParts("", "003-my-first-post", ".html"))
         == PathParts("", "my-first-post", ".html")
  {
    assert "003-my-first-post" == "003" + Hyphen + "my-first-post";
    RenamePostOfPrefixed("003", "my-first-post", PathParts("", "003-my-first-post", ".html"));
  }

  /** `.split('.md')[0]` cuts at the first `.md` even inside the name:
      `001-notes.mdx-draft.md` has slug `notes`. */
  lemma EarlyMarkdownExtExample(name: string)
    requires name == "001-notes.mdx-draft.md"
    ensures Slug(name) == "notes"
  {
    assert name == "001" + Hyphen + "notes" + MarkdownExt + "x-draft.md";
    AbsentCharNotFound("notes", '.', MarkdownExt);
    SlugCutsAtFirstMarkdownExt("001", "notes", "x-draft.md");
  }

  /** Without the condition of `SlugMatchesPostPage` the slug and the page name
      part: for `001-notes.mdx-draft.md` the slug is `notes`, but the posts task
      names the page `notes.mdx-draft`. */
  lemma SlugAndPageDifferWhenNameHoldsMd()
    ensures Slug("001-notes.mdx-draft" + MarkdownExt) == "notes"
    ensures DropOrderingPrefix("001-notes.mdx-draft") == "notes.mdx-draft"
  {
    EarlyMarkdownExtExample("001-notes.mdx-draft" + MarkdownExt);
    assert "001-notes.mdx-draft" == "001" + Hyphen + "notes.mdx-draft";
    FirstHyphen("001", "notes.mdx-draft");
    DropOrderingPrefixAfterFirstHyphen("001-notes.mdx-draft");
  }

  /** Two posts whose names differ only in their ordering prefix are written to
      the same page: `001-a` and `002-a` both become `a`. */
  lemma PagesCollide(d: string)
    ensures RenamePost(PathParts(d, "001-a", ".html")) == RenamePost(PathParts(d, "002-a", ".html"))
    ensures RenamePost(PathParts(d, "001-a", ".html")).basename == "a"
  {
    assert "001-a" == "001" + Hyphen + "a" && "002-a" == "002" + Hyphen + "a";
    RenamePostOfPrefixed("001", "a", PathParts(d, "001-a", ".html"));
    RenamePostOfPrefixed("002", "a", PathParts(d, "002-a", ".html"));
  }

  /** Every page whose name has no hyphen loses its whole base name, so all such
      pages of one directory are written to the same file, `.html`. */
  lemma HyphenFreePagesCollide(d: string, b1: string, b2: string, ext: string)
    requires '-' !in b1 && '-' !in b2
    ensures RenamePost(PathParts(d, b1, ext)) == RenamePost(PathParts(d, b2, ext)) == PathParts(d, "", ext)
  {
    AbsentCharNotFound(b1, '-', Hyphen);
    AbsentCharNotFound(b2, '-', Hyphen);
    DropOrderingPrefixAfterFirstHyphen(b1);
    DropOrderingPrefixAfterFirstHyphen(b2);
  }
}
