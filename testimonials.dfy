/**
 * `getInitials` of the testimonials carousel: the two letters shown in
 * place of a photo, taken from the name once a leading `Dr.` or `Dra.` is
 * removed.
 */
module Testimonials {

  import opened Js

  predicate StartsWith(s: string, prefix: string) {
    |prefix| <= |s| && s[..|prefix|] == prefix
  }

  /** The name opens with `Dr.` or `Dra.` followed by at least one
      whitespace character: `/^(Dr\.|Dra\.)\s+/` matches. */
  predicate HasTitle(name: string) {
    || (StartsWith(name, "Dr.") && |name| > 3 && IsWhitespace(name[3]))
    || (StartsWith(name, "Dra.") && |name| > 4 && IsWhitespace(name[4]))
  }

  /** `.replace(/^(Dr\.|Dra\.)\s+/, '')`: the title and all the whitespace
      after it go (`\s+` is greedy). */
  function StripTitle(name: string): string {
    if StartsWith(name, "Dr.") && |name| > 3 && IsWhitespace(name[3]) then TrimStart(name[3..])
    else if StartsWith(name, "Dra.") && |name| > 4 && IsWhitespace(name[4]) then TrimStart(name[4..])
    else name
  }

  /** The template text of `part[0]`: the first character, or `undefined`
      when the part is empty. */
  function FirstCharText(part: string): string {
    if part == [] then "undefined" else [part[0]]
  }

  /** `.substring(0, 2)`. */
  function FirstTwo(part: string): string {
    if |part| < 2 then part else part[..2]
  }

  /** The initials read off the space-separated parts of a name. */
  function InitialsOf(names: seq<string>): string
    requires |names| >= 1
  {
    if |names| >= 2 then ToUpper(FirstCharText(names[0]) + FirstCharText(names[|names| - 1]))
    else ToUpper(FirstTwo(names[0]))
  }

  /** `getInitials(name)`. */
  function GetInitials(name: string): string {
    InitialsOf(Split(StripTitle(name), ' '))
  }

  /** Leading whitespace is skipped up to the first other character. */
  lemma {:induction false} TrimStartSkipsBlank(gap: string, rest: string)
    requires forall k :: 0 <= k < |gap| ==> IsWhitespace(gap[k])
    requires rest == [] || !IsWhitespace(rest[0])
    ensures TrimStart(gap + rest) == rest
  {
    if gap == [] {
      assert gap + rest == rest;
      TrimStartIdempotent(rest);
    } else {
      assert (gap + rest)[1..] == gap[1..] + rest;
      TrimStartSkipsBlank(gap[1..], rest);
    }
  }

  /** A leading title and the whitespace after it are removed, whatever
      the length of that whitespace. */
  lemma TitleRemoved(title: string, gap: string, rest: string)
    requires title == "Dr." || title == "Dra."
    requires |gap| >= 1 && forall k :: 0 <= k < |gap| ==> IsWhitespace(gap[k])
    requires rest == [] || !IsWhitespace(rest[0])
    ensures HasTitle(title + gap + rest)
    ensures StripTitle(title + gap + rest) == rest
  {
    var name := title + gap + rest;
    assert name[..|title|] == title;
    assert name[|title|] == gap[0];
    assert name[|title|..] == gap + rest;
    TrimStartSkipsBlank(gap, rest);
  }

  /** The name changes exactly when it opens with a title, and what is
      left is always an ending of the name: a `Dr.` later in the name, or
      one not followed by whitespace, is kept. */
  lemma StripTitleOnlyAtStart(name: string)
    ensures StripTitle(name) != name <==> HasTitle(name)
    ensures |StripTitle(name)| <= |name| && StripTitle(name) == name[|name| - |StripTitle(name)|..]
  {
  }

  /** With two or more space-separated parts whose first and last are not
      empty, the initials are the first letters of the first and the last
      part, upper-cased; the middle parts play no role. */
  lemma InitialsOfSeveralParts(parts: seq<string>)
    requires |parts| >= 2
    requires forall k :: 0 <= k < |parts| ==> ' ' !in parts[k]
    requires parts[0] != [] && parts[|parts| - 1] != []
    requires !HasTitle(Join(parts, ' '))
    ensures GetInitials(Join(parts, ' ')) == ToUpper([parts[0][0], parts[|parts| - 1][0]])
  {
    var name := Join(parts, ' ');
    assert StripTitle(name) == name;
    SplitJoin(parts, ' ');
    InitialsOfParts(name, parts);
  }

  /** A single word gives its first two characters upper-cased, or the
      whole word when it is shorter. */
  lemma InitialsOfOnePart(word: string)
    requires ' ' !in word
    requires !HasTitle(word)
    ensures GetInitials(word) == ToUpper(word[..if |word| < 2 then |word| else 2])
  {
    SplitWithoutSeparator(word, ' ');
  }

  /** An empty first or last part, as a leading or trailing space
      makes, is indexed all the same: its character is `undefined`, which
      the template writes out in full. */
  lemma EmptyPartWritesUndefined(word: string)
    requires word != [] && ' ' !in word
    requires !HasTitle(word + " ")
    ensures GetInitials(word + " ") == ToUpper([word[0]] + "undefined")
    ensures GetInitials(" " + word) == ToUpper("undefined" + [word[0]])
  {
    SplitWithoutSeparator(word, ' ');
    assert StripTitle(word + " ") == word + [' '] + "";
    SplitAtFirst(word, "", ' ');
    assert Split(StripTitle(word + " "), ' ') == [word, ""];
    assert !HasTitle(" " + word) by {
      assert (" " + word)[0] == ' ';
      assert "Dr."[0] == 'D' && "Dra."[0] == 'D';
    }
    assert StripTitle(" " + word) == "" + [' '] + word;
    SplitAtFirst("", word, ' ');
    assert Split(StripTitle(" " + word), ' ') == ["", word];
  }

  /** The three names on the carousel. */
  lemma ShippedInitials()
    ensures GetInitials("Dra. Daniela Rosa") == "DR"
    ensures GetInitials("Dr. Victor Goulart Pires") == "VP"
    ensures GetInitials("Dra. Mariana Santos Pereira") == "MP"
  {
    FirstShippedName();
    SecondShippedName();
    ThirdShippedName();
  }

  lemma FirstShippedName()
    ensures GetInitials("Dra. Daniela Rosa") == "DR"
  {
    var parts := ["Daniela", "Rosa"];
    assert "Dra." + " " + Join(parts, ' ') == "Dra. Daniela Rosa";
    InitialsAfterTitle("Dra.", parts);
  }

  lemma SecondShippedName()
    ensures GetInitials("Dr. Victor Goulart Pires") == "VP"
  {
    var parts := ["Victor", "Goulart", "Pires"];
    assert "Dr." + " " + Join(parts, ' ') == "Dr. Victor Goulart Pires";
    InitialsAfterTitle("Dr.", parts);
  }

  lemma ThirdShippedName()
    ensures GetInitials("Dra. Mariana Santos Pereira") == "MP"
  {
    var parts := ["Mariana", "Santos", "Pereira"];
    assert "Dra." + " " + Join(parts, ' ') == "Dra. Mariana Santos Pereira";
    InitialsAfterTitle("Dra.", parts);
  }

  /** A titled name of capitalised words gives the capitals of its first
      and last word. */
  lemma InitialsAfterTitle(title: string, parts: seq<string>)
    requires title == "Dr." || title == "Dra."
    requires |parts| >= 2
    requires forall k :: 0 <= k < |parts| ==> ' ' !in parts[k] && parts[k] != [] && 'A' <= parts[k][0] <= 'Z'
    ensures GetInitials(title + " " + Join(parts, ' ')) == [parts[0][0], parts[|parts| - 1][0]]
  {
    CapitalsNotBlank(parts);
    InitialsOfTitledName(title, parts);
    var caps := [parts[0][0], parts[|parts| - 1][0]];
    CapitalsKept(caps);
  }

  lemma CapitalsNotBlank(parts: seq<string>)
    requires forall k :: 0 <= k < |parts| ==> ' ' !in parts[k] && parts[k] != [] && 'A' <= parts[k][0] <= 'Z'
    ensures forall k :: 0 <= k < |parts| ==> ' ' !in parts[k] && parts[k] != [] && !IsWhitespace(parts[k][0])
  {
  }

  lemma InitialsOfTitledName(title: string, parts: seq<string>)
    requires title == "Dr." || title == "Dra."
    requires |parts| >= 2
    requires forall k :: 0 <= k < |parts| ==> ' ' !in parts[k] && parts[k] != [] && !IsWhitespace(parts[k][0])
    ensures GetInitials(title + " " + Join(parts, ' ')) == ToUpper([parts[0][0], parts[|parts| - 1][0]])
  {
    var rest := Join(parts, ' ');
    var name := title + " " + rest;
    JoinStartsWithFirst(parts, ' ');
    TitleRemoved(title, " ", rest);
    SplitJoin(parts, ' ');
    InitialsOfParts(name, parts);
  }

  /** Once the parts of a name are known, its initials follow from the
      first and last part. */
  lemma InitialsOfParts(name: string, parts: seq<string>)
    requires Split(StripTitle(name), ' ') == parts
    requires |parts| >= 2 && parts[0] != [] && parts[|parts| - 1] != []
    ensures GetInitials(name) == ToUpper([parts[0][0], parts[|parts| - 1][0]])
  {
    assert GetInitials(name) == InitialsOf(parts);
    assert FirstCharText(parts[0]) + FirstCharText(parts[|parts| - 1]) == [parts[0][0], parts[|parts| - 1][0]];
  }

  lemma CapitalsKept(s: string)
    requires forall k :: 0 <= k < |s| ==> 'A' <= s[k] <= 'Z'
    ensures ToUpper(s) == s
  {
    ToUpperOfAsciiLetters(s);
  }

  lemma {:induction false} JoinStartsWithFirst(parts: seq<string>, sep: char)
    requires |parts| >= 1 && parts[0] != []
    ensures |Join(parts, sep)| > 0 && Join(parts, sep)[0] == parts[0][0]
  {
  }
}
