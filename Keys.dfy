/** Key decoding (src/util/keys.ts): one chunk of terminal input bytes becomes
    one keystroke. The decoder is total: every chunk yields a keystroke. */
module Keys {
  import opened Strings

  type Byte = b: int | 0 <= b < 256

  /** A decoded key: its name, the two modifiers, and the chunk it came from. */
  datatype KeyStroke = KeyStroke(key: string, isCtrl: bool, isAlt: bool, raw: seq<Byte>)
  {
    /** `toString()`: the modifiers joined by '+', then '+' and the key; the
        bare key when there are no modifiers. So the key is prefixed by
        `ctrl+` and then `alt+`, each when its modifier is held. */
    function ToString(): (s: string)
      ensures s == (if isCtrl then "ctrl+" else "") + (if isAlt then "alt+" else "") + key
    {
      var modifiers := (if isCtrl then ["ctrl"] else []) + (if isAlt then ["alt"] else []);
      assert JoinPlus(["ctrl"]) == "ctrl" && JoinPlus(["alt"]) == "alt";
      assert isCtrl && isAlt ==> JoinPlus(modifiers) == "ctrl+alt" by {
        if isCtrl && isAlt { assert modifiers == ["ctrl", "alt"]; }
      }
      if |modifiers| > 0 then JoinPlus(modifiers) + "+" + key else key
    }
  }

  /** `modifiers.join("+")`. */
  function JoinPlus(parts: seq<string>): string {
    if |parts| == 0 then []
    else if |parts| == 1 then parts[0]
    else JoinPlus(parts[..|parts| - 1]) + "+" + parts[|parts| - 1]
  }

  /** A key prints as a single character exactly when it has no modifier and
      a one-character name; this is the test insert and replace mode use. */
  lemma ToStringSingle(k: KeyStroke)
    ensures |k.ToString()| == 1 <==> !k.isCtrl && !k.isAlt && |k.key| == 1
  {
    if k.isCtrl && k.isAlt {
      assert JoinPlus(["ctrl", "alt"]) == "ctrl+alt";
    }
  }

  /** CTRL_CHARS: the name of a control byte, or "" when it has none. */
  function CtrlChar(code: int): (name: string)
    ensures name != [] ==> code == 127 || 1 <= code <= 27 || code == 32
  {
    match code
    case 1 => "ctrl+a" case 2 => "ctrl+b" case 3 => "ctrl+c" case 4 => "ctrl+d"
    case 5 => "ctrl+e" case 6 => "ctrl+f" case 7 => "ctrl+g" case 8 => "ctrl+h"
    case 9 => "tab" case 10 => "ctrl+j" case 11 => "ctrl+k" case 12 => "ctrl+l"
    case 13 => "return" case 14 => "ctrl+n" case 15 => "ctrl+o" case 16 => "ctrl+p"
    case 17 => "ctrl+q" case 18 => "ctrl+r" case 19 => "ctrl+s" case 20 => "ctrl+t"
    case 21 => "ctrl+u" case 22 => "ctrl+v" case 23 => "ctrl+w" case 24 => "ctrl+x"
    case 25 => "ctrl+y" case 26 => "ctrl+z" case 27 => "escape" case 32 => "space"
    case 127 => "backspace"
    case _ => ""
  }

  /** FUNCTION_KEYS, keyed by the sequence after the ESC byte; "" when absent.
      Every entry is `O` and a letter, or `[` followed by a digit or `Z`. */
  function FunctionKey(sequence: string): (name: string)
    ensures name != [] ==>
              (|sequence| >= 2 &&
               ((sequence[0] == 'O' && |sequence| == 2) || (sequence[0] == '[' && sequence[1] in "123456Z")))
  {
    match sequence
    case "OP" => "f1" case "OQ" => "f2" case "OR" => "f3" case "OS" => "f4"
    case "[15~" => "f5" case "[17~" => "f6" case "[18~" => "f7" case "[19~" => "f8"
    case "[20~" => "f9" case "[21~" => "f10" case "[23~" => "f11" case "[24~" => "f12"
    case "[3~" => "delete" case "[2~" => "insert" case "[5~" => "pageup"
    case "[6~" => "pagedown" case "[1~" => "home" case "[4~" => "end"
    case "[Z" => "shift+tab"
    case "[1;5A" => "up" case "[1;5B" => "down" case "[1;5C" => "right" case "[1;5D" => "left"
    case _ => ""
  }

  /** SYMBOLS: the character a printable symbol byte stands for; "" for other bytes. */
  function Symbol(code: int): (name: string)
    ensures name != [] ==> 33 <= code < 127 && name == [code as char]
  {
    match code
    case 33 => "!" case 64 => "@" case 35 => "#" case 36 => "$" case 37 => "%"
    case 94 => "^" case 38 => "&" case 42 => "*" case 40 => "(" case 41 => ")"
    case 95 => "_" case 43 => "+" case 123 => "{" case 125 => "}" case 124 => "|"
    case 58 => ":" case 34 => "\"" case 60 => "<" case 62 => ">" case 63 => "?"
    case 96 => "`" case 126 => "~" case 45 => "-" case 61 => "=" case 91 => "["
    case 93 => "]" case 92 => "\\" case 59 => ";" case 39 => "'" case 44 => ","
    case 46 => "." case 47 => "/"
    case _ => ""
  }

  /** The `switch (buffer[2])` after `ESC [`; "" for the other bytes. */
  function ArrowFinal(code: int): string {
    match code
    case 65 => "up" case 66 => "down" case 67 => "right" case 68 => "left"
    case 72 => "home" case 70 => "end"
    case _ => ""
  }

  /** `String.fromCharCode(b)` for one byte. */
  function CharOf(b: Byte): string {
    [b as char]
  }

  /** `String.fromCharCode(...bytes)`. */
  function CharsOf(bytes: seq<Byte>): (s: string)
    ensures |s| == |bytes| && forall i :: 0 <= i < |bytes| ==> s[i] == bytes[i] as char
  {
    seq(|bytes|, i requires 0 <= i < |bytes| => bytes[i] as char)
  }

  /** getKeyStroke. Multi-byte input that is not a recognised escape sequence
      goes through a UTF-8 `TextDecoder`, which is a parameter here. */
  function GetKeyStroke(buffer: seq<Byte>, utf8Decode: seq<Byte> -> string): (k: KeyStroke)
    ensures k.raw == buffer
    ensures |buffer| != 1 && (|buffer| == 0 || buffer[0] != 27) ==>
              k == KeyStroke(utf8Decode(buffer), false, false, buffer)
  {
    if |buffer| == 1 then
      var code := buffer[0];
      if code < 32 || code == 127 then
        var key := CtrlChar(code);
        if StartsWith(key, "ctrl+") then KeyStroke(key[5..], true, false, buffer)
        else if Symbol(code) != [] then KeyStroke(Symbol(code), false, false, buffer)
        else if key != [] then KeyStroke(key, false, false, buffer)
        else KeyStroke("char(" + DecimalString(code) + ")", false, false, buffer)
      else
        KeyStroke(CharOf(code), false, false, buffer)
    else if |buffer| == 2 && buffer[0] == 27 then
      var c := buffer[1];
      if Symbol(c) != [] then KeyStroke(Symbol(c), false, true, buffer)
      else KeyStroke(CharOf(c), false, true, buffer)
    else if |buffer| >= 3 && buffer[0] == 27 then
      var sequence := CharsOf(buffer[1..]);
      var last := buffer[|buffer| - 1];
      if (buffer[1] == 79 || (buffer[1] == 91 && (last == 126 || last == 90)))
         && FunctionKey(sequence) != [] then
        KeyStroke(FunctionKey(sequence), false, false, buffer)
      else if buffer[1] == 91 && ArrowFinal(buffer[2]) != [] then
        KeyStroke(ArrowFinal(buffer[2]), false, false, buffer)
      else if buffer[1] == 91 && StartsWith(sequence, "[1;5") && FunctionKey(sequence) != [] then
        KeyStroke(FunctionKey(sequence), true, false, buffer)
      else
        KeyStroke(utf8Decode(buffer), false, false, buffer)
    else
      KeyStroke(utf8Decode(buffer), false, false, buffer)
  }

  // ---------------------------------------------------------------------
  // Properties of the decoder

  /** Bytes 1..26 other than tab (9) and return (13) are ctrl plus a letter:
      byte n is ctrl and the n-th lower-case letter. */
  lemma CtrlLetter(n: Byte, utf8Decode: seq<Byte> -> string)
    requires 1 <= n <= 26 && n != 9 && n != 13
    ensures GetKeyStroke([n], utf8Decode) == KeyStroke([('a' as int + n - 1) as char], true, false, [n])
  {
    assert CtrlChar(n) == "ctrl+" + [('a' as int + n - 1) as char];
  }

  /** Every other single control byte is a plain named key ("tab", "return",
      "escape", "space", "backspace") or, when unnamed, `char(<code>)`; none
      has a modifier. The symbol lookup in between never succeeds, because
      every symbol byte is printable. */
  lemma OtherControlBytes(n: Byte, utf8Decode: seq<Byte> -> string)
    requires n == 0 || n == 9 || n == 13 || 27 <= n < 32 || n == 127
    ensures var k := GetKeyStroke([n], utf8Decode);
      !k.isCtrl && !k.isAlt &&
      k.key == (if CtrlChar(n) != [] then CtrlChar(n) else "char(" + DecimalString(n) + ")")
  {
    var key := CtrlChar(n);
    assert !StartsWith(key, "ctrl+") by {
      assert key == [] || key[1] != 't';
    }
  }

  /** A single printable byte is that character, unmodified. */
  lemma PrintableByte(n: Byte, utf8Decode: seq<Byte> -> string)
    requires 32 <= n < 127 || 128 <= n
    ensures GetKeyStroke([n], utf8Decode) == KeyStroke([n as char], false, false, [n])
  {
  }

  /** ESC followed by one byte is alt plus that byte's character. */
  lemma AltKey(c: Byte, utf8Decode: seq<Byte> -> string)
    ensures GetKeyStroke([27, c], utf8Decode) == KeyStroke([c as char], false, true, [27, c])
  {
  }

  /** `ESC [` followed by A, B, C, D, H or F is an arrow, home or end key,
      whatever bytes follow: no function-key sequence starts that way. */
  lemma ArrowKeys(rest: seq<Byte>, final: Byte, utf8Decode: seq<Byte> -> string)
    requires ArrowFinal(final) != []
    ensures GetKeyStroke([27, 91, final] + rest, utf8Decode) ==
            KeyStroke(ArrowFinal(final), false, false, [27, 91, final] + rest)
  {
    var b := [27, 91, final] + rest;
    var sequence := CharsOf(b[1..]);
    assert sequence[1] == final as char && final as char !in "123456Z";
    assert FunctionKey(sequence) == [];
  }

  /** `ESC O` followed by anything, or `ESC [` followed by a sequence ending in
      `~` or `Z`, that is in FUNCTION_KEYS decodes to that key, unmodified. */
  lemma FunctionKeyDecodes(b: seq<Byte>, utf8Decode: seq<Byte> -> string)
    requires |b| >= 3 && b[0] == 27
    requires b[1] == 79 || (b[1] == 91 && (b[|b| - 1] == 126 || b[|b| - 1] == 90))
    requires FunctionKey(CharsOf(b[1..])) != []
    ensures GetKeyStroke(b, utf8Decode) == KeyStroke(FunctionKey(CharsOf(b[1..])), false, false, b)
  {
  }

  /** An escape sequence of three or more bytes that names no function key
      and no arrow goes to the UTF-8 decoder, like any other chunk. The
      ctrl+arrow test cannot succeed then, since its names are function keys. */
  lemma EscapeFallThrough(b: seq<Byte>, utf8Decode: seq<Byte> -> string)
    requires |b| >= 3 && b[0] == 27
    requires FunctionKey(CharsOf(b[1..])) == []
    requires b[1] != 91 || ArrowFinal(b[2]) == []
    ensures GetKeyStroke(b, utf8Decode) == KeyStroke(utf8Decode(b), false, false, b)
  {
  }

  /** `ESC [ X Y` is no key the tables know: it is decoded as UTF-8. */
  lemma UnknownEscapeDecoded(utf8Decode: seq<Byte> -> string)
    ensures GetKeyStroke([27, 91, 88, 89], utf8Decode) ==
            KeyStroke(utf8Decode([27, 91, 88, 89]), false, false, [27, 91, 88, 89])
  {
    var b: seq<Byte> := [27, 91, 88, 89];
    var sequence := CharsOf(b[1..]);
    assert sequence[1] == 'X';
    EscapeFallThrough(b, utf8Decode);
  }

  /** `ESC [ 1 ; 5` then A, B, C or D is ctrl plus the matching arrow. */
  lemma CtrlArrowKeys(final: Byte, utf8Decode: seq<Byte> -> string)
    requires 65 <= final <= 68
    ensures var k := GetKeyStroke([27, 91, 49, 59, 53, final], utf8Decode);
      k.isCtrl && !k.isAlt && k.key == ArrowFinal(final)
  {
    var b: seq<Byte> := [27, 91, 49, 59, 53, final];
    assert b[1..] == [91, 49, 59, 53, final];
    var sequence := CharsOf(b[1..]);
    assert sequence == "[1;5" + [final as char];
    assert StartsWith(sequence, "[1;5");
    assert ArrowFinal(b[2]) == [];
    if final == 65 { assert sequence == "[1;5A"; }
    else if final == 66 { assert sequence == "[1;5B"; }
    else if final == 67 { assert sequence == "[1;5C"; }
    else { assert sequence == "[1;5D"; }
  }

  /** Some function-key sequences and the names they decode to. */
  lemma FunctionKeySequences(utf8Decode: seq<Byte> -> string)
    ensures GetKeyStroke([27, 79, 80], utf8Decode).key == "f1"
    ensures GetKeyStroke([27, 91, 49, 53, 126], utf8Decode).key == "f5"
    ensures GetKeyStroke([27, 91, 51, 126], utf8Decode).key == "delete"
    ensures GetKeyStroke([27, 91, 90], utf8Decode).key == "shift+tab"
  {
    var f1: seq<Byte> := [27, 79, 80];
    assert CharsOf(f1[1..]) == "OP";
    var f5: seq<Byte> := [27, 91, 49, 53, 126];
    assert CharsOf(f5[1..]) == "[15~";
    var del: seq<Byte> := [27, 91, 51, 126];
    assert CharsOf(del[1..]) == "[3~";
    var backTab: seq<Byte> := [27, 91, 90];
    assert CharsOf(backTab[1..]) == "[Z";
  }

  /** The textual forms of some decoded single bytes. */
  lemma SingleByteNames(utf8Decode: seq<Byte> -> string)
    ensures GetKeyStroke([3], utf8Decode).ToString() == "ctrl+c"
    ensures GetKeyStroke([65], utf8Decode).ToString() == "A"
    ensures GetKeyStroke([127], utf8Decode).ToString() == "backspace"
  {
    CtrlLetter(3, utf8Decode);
    var c := KeyStroke("c", true, false, [3]);
    assert GetKeyStroke([3], utf8Decode) == c;
    assert JoinPlus(["ctrl"]) == "ctrl";
    assert c.ToString() == "ctrl+c";
    PrintableByte(65, utf8Decode);
    OtherControlBytes(127, utf8Decode);
    assert CtrlChar(127) == "backspace";
  }

  /** The textual forms of some decoded escape sequences. */
  lemma EscapeSequenceNames(utf8Decode: seq<Byte> -> string)
    ensures GetKeyStroke([27, 120], utf8Decode).ToString() == "alt+x"
    ensures GetKeyStroke([27, 91, 65], utf8Decode).ToString() == "up"
  {
    AltKey(120, utf8Decode);
    ArrowKeys([], 65, utf8Decode);
    assert [27, 91, 65] + [] == [27, 91, 65];
  }
}
