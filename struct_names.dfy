/**
 * The name of the C++ struct and the Java class generated for a message:
 * the message name split on `_`, each word capitalised the way Python's
 * `str.capitalize` does it (first character upper-case, the rest lower-case),
 * the words joined without separator, and `Message` appended.  Both the C++
 * and the Java generation steps use this one rule.
 *
 * `MessageNameOf` reads a struct name back into the message name; it undoes
 * `StructName` on every UPPER_SNAKE_CASE name, so the rule never gives two
 * such names the same struct.  Names outside that form can collide.
 */
module StructNames {
  import opened Wrappers
  import opened PyText

  // ---------------------------------------------------------------------------
  // ASCII case mapping
  // ---------------------------------------------------------------------------

  predicate IsUpper(c: char) { 'A' <= c <= 'Z' }
  predicate IsLower(c: char) { 'a' <= c <= 'z' }
  predicate IsDecimalDigit(c: char) { '0' <= c <= '9' }

  function ToUpper(c: char): char
  {
    if IsLower(c) then (c as int - 32) as char else c
  }

  function ToLower(c: char): char
  {
    if IsUpper(c) then (c as int + 32) as char else c
  }

  /** Python's `s.lower()` on ASCII text. */
  function LowerAll(s: string): string
  {
    if |s| == 0 then "" else [ToLower(s[0])] + LowerAll(s[1..])
  }

  /** Python's `word.capitalize()` on ASCII text. */
  function Capitalize(word: string): string
  {
    if |word| == 0 then "" else [ToUpper(word[0])] + LowerAll(word[1..])
  }

  /** `"".join(word.capitalize() for word in words)`. */
  function PascalCase(words: seq<string>): string
  {
    if |words| == 0 then "" else Capitalize(words[0]) + PascalCase(words[1..])
  }

  const Suffix := "Message"

  /** The struct (C++) or class (Java) name generated for the message called `name`. */
  function StructName(name: string): string
  {
    PascalCase(Split(name, '_')) + Suffix
  }

  // ---------------------------------------------------------------------------
  // Reading a struct name back
  // ---------------------------------------------------------------------------

  /** One word of an UPPER_SNAKE_CASE name: an upper-case letter, then upper-case letters and digits. */
  predicate UpperWord(w: string)
  {
    |w| >= 1 && IsUpper(w[0]) && forall i :: 1 <= i < |w| ==> IsUpper(w[i]) || IsDecimalDigit(w[i])
  }

  /** Every `_`-separated word of the name is an `UpperWord` (so no word is empty). */
  predicate UpperSnake(name: string)
  {
    var words := Split(name, '_');
    forall k :: 0 <= k < |words| ==> UpperWord(words[k])
  }

  /** Every upper-case letter starts a word: write `_` before it; every other character is upper-cased. */
  function Underscored(s: string): string
  {
    if |s| == 0 then ""
    else (if IsUpper(s[0]) then ['_', s[0]] else [ToUpper(s[0])]) + Underscored(s[1..])
  }

  /** A PascalCase text back in UPPER_SNAKE_CASE (no underscore before the first word). */
  function SnakeCase(pascal: string): string
  {
    var u := Underscored(pascal);
    if |u| >= 1 && u[0] == '_' then u[1..] else u
  }

  /** The message name a struct name was generated from; `None` when it does not end with `Message`. */
  function MessageNameOf(structName: string): Option<string>
  {
    var n := |structName| - |Suffix|;
    if n >= 0 && structName[n..] == Suffix then Some(SnakeCase(structName[..n])) else None
  }

  /** `StructName` is undone by `MessageNameOf` on every UPPER_SNAKE_CASE name. */
  lemma StructNameRoundTrip(name: string)
    requires UpperSnake(name)
    ensures MessageNameOf(StructName(name)) == Some(name)
  {
    var words := Split(name, '_');
    var pascal := PascalCase(words);
    var s := pascal + Suffix;
    assert s[|pascal|..] == Suffix && s[..|pascal|] == pascal;
    UnderscoredPascal(words);
    JoinSplit(name, '_');
  }

  /** Two UPPER_SNAKE_CASE message names never share a struct name. */
  lemma StructNameInjective(a: string, b: string)
    requires UpperSnake(a) && UpperSnake(b)
    requires StructName(a) == StructName(b)
    ensures a == b
  {
    StructNameRoundTrip(a);
    StructNameRoundTrip(b);
  }

  /** Reading a run of capitalised words back gives `_` before each word. */
  lemma {:induction false} UnderscoredPascal(words: seq<string>)
    requires |words| >= 1
    requires forall k :: 0 <= k < |words| ==> UpperWord(words[k])
    ensures Underscored(PascalCase(words)) == ['_'] + Join(words, '_')
    decreases |words|
  {
    var w := words[0];
    var rest := PascalCase(words[1..]);
    var low := LowerAll(w[1..]);
    var tail := low + rest;
    assert PascalCase(words) == Capitalize(w) + rest;
    WordParts(w);
    Regroup3([w[0]], low, rest);
    assert PascalCase(words) == [w[0]] + tail;
    UnderscoredCons(w[0], tail);
    UnderscoredLower(w[1..], rest);
    assert Underscored(PascalCase(words)) == ['_', w[0]] + (w[1..] + Underscored(rest));
    if |words| == 1 {
      assert words[1..] == [] && rest == "" && Underscored(rest) == "";
      assert Join(words, '_') == w;
      assert w[1..] + "" == w[1..];
      ConsWord(w);
    } else {
      var others := Join(words[1..], '_');
      UnderscoredPascal(words[1..]);
      assert Underscored(rest) == ['_'] + others;
      assert Join(words, '_') == w + ['_'] + others;
      assert Underscored(PascalCase(words)) == ['_', w[0]] + (w[1..] + (['_'] + others));
      Regroup(w, others);
    }
  }

  lemma ConsWord(w: string)
    requires |w| >= 1
    ensures ['_', w[0]] + w[1..] == ['_'] + w
  {
    assert w == [w[0]] + w[1..];
  }

  lemma Regroup(w: string, others: string)
    requires |w| >= 1
    ensures ['_', w[0]] + (w[1..] + (['_'] + others)) == ['_'] + (w + ['_'] + others)
  {
    assert w == [w[0]] + w[1..];
  }

  lemma WordParts(w: string)
    requires UpperWord(w)
    ensures Capitalize(w) == [w[0]] + LowerAll(w[1..]) && IsUpper(w[0])
    ensures forall i :: 0 <= i < |w[1..]| ==> IsUpper(w[1..][i]) || IsDecimalDigit(w[1..][i])
  {
    assert forall i :: 0 <= i < |w[1..]| ==> w[1..][i] == w[i + 1];
  }

  lemma UnderscoredCons(c: char, s: string)
    ensures Underscored([c] + s) == (if IsUpper(c) then ['_', c] else [ToUpper(c)]) + Underscored(s)
  {
    assert ([c] + s)[0] == c && ([c] + s)[1..] == s;
  }

  /** Lower-cased letters and digits read back as themselves, upper-cased, with no underscore. */
  lemma {:induction false} UnderscoredLower(t: string, rest: string)
    requires forall i :: 0 <= i < |t| ==> IsUpper(t[i]) || IsDecimalDigit(t[i])
    ensures Underscored(LowerAll(t) + rest) == t + Underscored(rest)
    decreases |t|
  {
    if |t| > 0 {
      var c := ToLower(t[0]);
      var more := LowerAll(t[1..]) + rest;
      assert LowerAll(t) == [c] + LowerAll(t[1..]);
      assert LowerAll(t) + rest == [c] + more;
      assert !IsUpper(c) && ToUpper(c) == t[0];
      UnderscoredCons(c, more);
      UnderscoredLower(t[1..], rest);
      assert Underscored(LowerAll(t) + rest) == [t[0]] + (t[1..] + Underscored(rest));
      assert t == [t[0]] + t[1..];
    } else {
      assert LowerAll(t) + rest == rest;
    }
  }

  // ---------------------------------------------------------------------------
  // Examples
  // ---------------------------------------------------------------------------

  /** The struct name of words joined with `_`: the words capitalised and run together, then `Message`. */
  lemma StructNameOfWords(words: seq<string>)
    requires |words| >= 1 && forall k :: 0 <= k < |words| ==> '_' !in words[k]
    ensures StructName(Join(words, '_')) == PascalCase(words) + Suffix
  {
    SplitJoin(words, '_');
  }

  /** The name of the first message of the sensor-network example, SENSOR_READING_SINGLE. */
  lemma SensorReadingSingleName(words: seq<string>)
    requires words == ["SENSOR", "READING", "SINGLE"]
    ensures StructName(Join(words, '_')) == "SensorReadingSingleMessage"
  {
    UpperWordsOfSensorName();
    forall k | 0 <= k < |words| ensures '_' !in words[k] {
      UpperWordPlain(words[k]);
    }
    StructNameOfWords(words);
    SensorReadingSinglePascal(words);
    var pascal := PascalCase(words);
    assert pascal == "SensorReadingSingle";
    assert StructName(Join(words, '_')) == pascal + Suffix;
    MessageSuffix(pascal);
  }

  lemma MessageSuffix(pascal: string)
    requires pascal == "SensorReadingSingle"
    ensures pascal + Suffix == "SensorReadingSingleMessage"
  {
  }

  lemma UpperWordsOfSensorName()
    ensures UpperWord("SENSOR") && UpperWord("READING") && UpperWord("SINGLE")
  {
    assert UpperWord("SENSOR");
    assert UpperWord("READING");
  }

  /** UPPER_SNAKE_CASE words joined with `_` make an UPPER_SNAKE_CASE name that splits back into them. */
  lemma SnakeJoin(words: seq<string>)
    requires |words| >= 1 && forall k :: 0 <= k < |words| ==> UpperWord(words[k])
    ensures Split(Join(words, '_'), '_') == words && UpperSnake(Join(words, '_'))
  {
    forall k | 0 <= k < |words| ensures '_' !in words[k] {
      UpperWordPlain(words[k]);
    }
    var name := Join(words, '_');
    SplitJoin(words, '_');
    assert Split(name, '_') == words;
  }

  /** An UPPER_SNAKE_CASE word holds no `_`. */
  lemma UpperWordPlain(w: string)
    requires UpperWord(w)
    ensures '_' !in w
  {
    assert forall i :: 0 <= i < |w| ==> IsUpper(w[i]) || IsDecimalDigit(w[i]);
  }

  lemma SensorReadingSinglePascal(words: seq<string>)
    requires words == ["SENSOR", "READING", "SINGLE"]
    ensures PascalCase(words) == "SensorReadingSingle"
  {
    PascalOfThree(words[0], words[1], words[2]);
    CapitalizeSensorWords();
    var x, y, z := Capitalize(words[0]), Capitalize(words[1]), Capitalize(words[2]);
    assert x == "Sensor" && y == "Reading" && z == "Single";
    SensorReadingSingleText(x, y, z);
  }

  lemma SensorReadingSingleText(x: string, y: string, z: string)
    requires x == "Sensor" && y == "Reading" && z == "Single"
    ensures x + (y + z) == "SensorReadingSingle"
  {
  }

  lemma PascalOfThree(a: string, b: string, c: string)
    ensures PascalCase([a, b, c]) == Capitalize(a) + (Capitalize(b) + Capitalize(c))
  {
    var x, y, z := Capitalize(a), Capitalize(b), Capitalize(c);
    assert [c][1..] == [];
    assert PascalCase([c]) == z + "";
    assert z + "" == z;
    assert [b, c][1..] == [c];
    assert PascalCase([b, c]) == y + z;
    assert [a, b, c][1..] == [b, c];
  }

  lemma CapitalizeSensorWords()
    ensures Capitalize("SENSOR") == "Sensor" && Capitalize("READING") == "Reading" && Capitalize("SINGLE") == "Single"
  {
    CapitalizeSensor();
    CapitalizeReading();
    CapitalizeSingle();
  }

  lemma CapitalizeSensor()
    ensures Capitalize("SENSOR") == "Sensor"
  {
    LowerTail("ENSOR", "ensor");
  }

  lemma CapitalizeReading()
    ensures Capitalize("READING") == "Reading"
  {
    LowerTail("EADING", "eading");
  }

  lemma CapitalizeSingle()
    ensures Capitalize("SINGLE") == "Single"
  {
    LowerTail("INGLE", "ingle");
  }

  /** Lower-casing works character by character. */
  lemma {:induction false} LowerAllAt(s: string)
    ensures |LowerAll(s)| == |s| && forall i :: 0 <= i < |s| ==> LowerAll(s)[i] == ToLower(s[i])
  {
    if |s| > 0 {
      LowerAllAt(s[1..]);
    }
  }

  /** `LowerAll(upper) == lower` when the two agree character by character. */
  lemma LowerTail(upper: string, lower: string)
    requires |upper| == |lower| && forall i :: 0 <= i < |upper| ==> ToLower(upper[i]) == lower[i]
    ensures LowerAll(upper) == lower
  {
    LowerAllAt(upper);
  }

  lemma PascalCons(w: string, ws: seq<string>)
    ensures PascalCase([w] + ws) == Capitalize(w) + PascalCase(ws)
  {
    assert ([w] + ws)[0] == w && ([w] + ws)[1..] == ws;
  }

  /** An empty word capitalises to nothing, so a doubled underscore gives the same struct name as a single one. */
  lemma DoubledUnderscoreCollides(a: string, b: string)
    ensures StructName(a + "_" + b) == StructName(a + "__" + b)
    ensures !UpperSnake(a + "__" + b)
  {
    var left, right := Split(a, '_'), Split(b, '_');
    SplitDoubled(a, b);
    PascalAppend(left, [""] + right);
    PascalAppend(left, right);
    PascalCons("", right);
    assert PascalCase([""] + right) == PascalCase(right);
    assert (left + ([""] + right))[|left|] == "";
  }

  lemma SplitDoubled(a: string, b: string)
    ensures Split(a + "_" + b, '_') == Split(a, '_') + Split(b, '_')
    ensures Split(a + "__" + b, '_') == Split(a, '_') + ([""] + Split(b, '_'))
  {
    var u := "_" + b;
    SplitAround(a, '_', b);
    SplitAround(a, '_', u);
    assert a + "__" + b == a + ['_'] + u;
    assert a + "_" + b == a + ['_'] + b;
    FirstIndexIs(u, '_', 0);
    assert u[..0] == "" && u[1..] == b;
  }

  lemma Regroup3(a: string, b: string, c: string)
    ensures a + (b + c) == (a + b) + c
  {
  }

  /** Capitalising a list of words piecewise. */
  lemma {:induction false} PascalAppend(xs: seq<string>, ys: seq<string>)
    ensures PascalCase(xs + ys) == PascalCase(xs) + PascalCase(ys)
    decreases |xs|
  {
    if |xs| == 0 {
      assert xs + ys == ys;
    } else {
      var x, rest := xs[0], xs[1..];
      assert xs == [x] + rest;
      assert xs + ys == [x] + (rest + ys);
      PascalCons(x, rest + ys);
      PascalCons(x, rest);
      PascalAppend(rest, ys);
      Regroup3(Capitalize(x), PascalCase(rest), PascalCase(ys));
    }
  }
}
