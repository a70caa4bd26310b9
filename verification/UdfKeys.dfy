/** Cache keys of user functions (UDFCache._generate_cache_key in udf.py), and what requests with equal keys come to. */
module UdfKeys {
  import opened Sequences
  import opened PyStrings

  type Key = string
  type Code = string

  /** _generate_cache_key, with SHA-256 taken as injective. */
  function CacheKey(text: string, name: string): Key {
    Strip(text) + ":" + name
  }

  /** The key tells functions apart as long as their names hold no colon. */
  lemma KeyDeterminesFunction(text: string, name: string, text': string, name': string)
    requires ':' !in name && ':' !in name' && CacheKey(text, name) == CacheKey(text', name')
    ensures Strip(text) == Strip(text') && name == name'
  {
    var k := CacheKey(text, name);
    LastColon(Strip(text), name);
    LastColon(Strip(text'), name');
  }

  /** The part after the last colon. */
  function AfterColon(s: string): string {
    if s == "" || s[|s| - 1] == ':' then "" else AfterColon(s[..|s| - 1]) + [s[|s| - 1]]
  }

  lemma {:induction false} LastColon(a: string, name: string)
    requires ':' !in name
    ensures AfterColon(a + ":" + name) == name && (a + ":" + name)[..|a + ":" + name| - |name| - 1] == a
  {
    var s := a + ":" + name;
    if name != "" {
      var n := |name| - 1;
      assert s[..|s| - 1] == a + ":" + name[..n];
      LastColon(a, name[..n]);
    }
  }

  /** Another trimmed text and name with this key would put its colon at p. */
  predicate OtherSplit(k: Key, p: nat) {
    p < |k| && k[p] == ':' && Strip(k[..p]) == k[..p]
  }

  /** Whether no other trimmed text and name have the key of this one. */
  ghost predicate OnlyFunction(text: string, name: string) {
    forall text', name' :: Strip(text') == text' && CacheKey(text', name') == CacheKey(text, name) ==>
      text' == text && name' == name
  }

  /** A function shares its key with no other exactly when no other colon of the key ends a trimmed text. */
  lemma KeyIsUnique(text: string, name: string)
    requires Strip(text) == text
    ensures OnlyFunction(text, name) <==> forall p: nat :: OtherSplit(CacheKey(text, name), p) ==> p == |text|
  {
    hide Strip;
    var k := CacheKey(text, name);
    forall p: nat | OtherSplit(k, p) && p != |text|
      ensures !OnlyFunction(text, name)
    {
      assert k == k[..p] + ":" + k[p + 1..];
      assert CacheKey(k[..p], k[p + 1..]) == k;
    }
    forall text', name' | Strip(text') == text' && CacheKey(text', name') == k && (text' != text || name' != name)
      ensures OtherSplit(k, |text'|) && |text'| != |text|
    {
      assert k[..|text'|] == text' && k[|text'|] == ':' && k[|text'| + 1..] == name';
      assert k[..|text|] == text && k[|text| + 1..] == name;
    }
  }

  // --- requests ----------------------------------------------------------------------------------------------

  /** The function text and the function name of a UDF task. */
  type Request = (string, string)

  function KeyOf(r: Request): Key {
    CacheKey(Strip(r.0), Strip(r.1))
  }

  function Compile(compile: (string, string) -> Option<Code>, r: Request): Option<Code> {
    compile(Strip(r.0), Strip(r.1))
  }

  /** No two requests for different functions share a key. */
  ghost predicate KeysTell(requests: seq<Request>) {
    forall i, j :: 0 <= i < |requests| && 0 <= j < |requests| && KeyOf(requests[i]) == KeyOf(requests[j]) ==>
      Strip(requests[i].0) == Strip(requests[j].0) && Strip(requests[i].1) == Strip(requests[j].1)
  }

  /** So it is when no function name holds a colon. */
  lemma KeysTellWithoutColons(requests: seq<Request>)
    requires forall r :: r in requests ==> ':' !in Strip(r.1)
    ensures KeysTell(requests)
  {
    forall i, j | 0 <= i < |requests| && 0 <= j < |requests| && KeyOf(requests[i]) == KeyOf(requests[j])
      ensures Strip(requests[i].0) == Strip(requests[j].0) && Strip(requests[i].1) == Strip(requests[j].1)
    {
      assert requests[i] in requests && requests[j] in requests;
      KeyDeterminesFunction(Strip(requests[i].0), Strip(requests[i].1), Strip(requests[j].0), Strip(requests[j].1));
      StripIdempotent(requests[i].0);
      StripIdempotent(requests[j].0);
    }
  }

  /** The code is what compiling one of the requests with this key gives. */
  ghost predicate IsCompiled(compile: (string, string) -> Option<Code>, requests: seq<Request>, k: Key, code: Code) {
    exists i :: 0 <= i < |requests| && KeyOf(requests[i]) == k && Compile(compile, requests[i]) == Some(code)
  }

  lemma FreshlyCompiled(compile: (string, string) -> Option<Code>, earlier: seq<Request>, r: Request, code: Code)
    requires Compile(compile, r) == Some(code)
    ensures IsCompiled(compile, earlier + [r], KeyOf(r), code)
  {
    assert (earlier + [r])[|earlier|] == r;
  }

  lemma StillCompiled(compile: (string, string) -> Option<Code>, earlier: seq<Request>, r: Request)
    ensures forall k, code :: IsCompiled(compile, earlier, k, code) ==> IsCompiled(compile, earlier + [r], k, code)
  {
    forall k, code | IsCompiled(compile, earlier, k, code)
      ensures IsCompiled(compile, earlier + [r], k, code)
    {
      var i :| 0 <= i < |earlier| && KeyOf(earlier[i]) == k && Compile(compile, earlier[i]) == Some(code);
      assert (earlier + [r])[i] == earlier[i];
    }
  }

  lemma SameFunction(compile: (string, string) -> Option<Code>, requests: seq<Request>, i: nat, code: Code)
    requires KeysTell(requests) && i < |requests| && IsCompiled(compile, requests[..i], KeyOf(requests[i]), code)
    ensures Compile(compile, requests[i]) == Some(code)
  {
    var j :| 0 <= j < i && KeyOf(requests[..i][j]) == KeyOf(requests[i]) &&
    Compile(compile, requests[..i][j]) == Some(code);
    assert requests[..i][j] == requests[j];
  }

  /** What each key is known to compile to, when nothing is ever dropped: the first code that was had for it. */
  function Answers(compile: (string, string) -> Option<Code>, requests: seq<Request>): map<Key, Code> {
    if requests == [] then map[]
    else Answered(Answers(compile, requests[..|requests| - 1]), compile, requests[|requests| - 1])
  }

  function Answered(known: map<Key, Code>, compile: (string, string) -> Option<Code>, r: Request): map<Key, Code> {
    if KeyOf(r) in known || Compile(compile, r).None? then known else known[KeyOf(r) := Compile(compile, r).value]
  }

  /** The answer to the i-th request. */
  function Answer(compile: (string, string) -> Option<Code>, requests: seq<Request>, i: nat): Option<Code>
    requires i < |requests|
  {
    var known := Answers(compile, requests[..i + 1]);
    if KeyOf(requests[i]) in known then Some(known[KeyOf(requests[i])]) else None
  }

  /** The first request with the key that compiles, if any. */
  ghost predicate IsFirst(compile: (string, string) -> Option<Code>, requests: seq<Request>, k: Key, i: nat) {
    && i < |requests| && KeyOf(requests[i]) == k && Compile(compile, requests[i]).Some?
    && forall j :: 0 <= j < i && KeyOf(requests[j]) == k ==> Compile(compile, requests[j]).None?
  }

  /** No request with the key compiles. */
  ghost predicate NoneCompiles(compile: (string, string) -> Option<Code>, requests: seq<Request>, k: Key) {
    forall j :: 0 <= j < |requests| && KeyOf(requests[j]) == k ==> Compile(compile, requests[j]).None?
  }

  lemma FirstOneMore(compile: (string, string) -> Option<Code>, requests: seq<Request>, r: Request, k: Key)
    ensures forall i: nat :: i < |requests| ==>
      (IsFirst(compile, requests + [r], k, i) <==> IsFirst(compile, requests, k, i))
    ensures IsFirst(compile, requests + [r], k, |requests|)
            <==> KeyOf(r) == k && Compile(compile, r).Some? && NoneCompiles(compile, requests, k)
  {
    hide KeyOf, Compile;
    assert forall j :: 0 <= j < |requests| ==> (requests + [r])[j] == requests[j];
    assert (requests + [r])[|requests|] == r;
  }

  lemma {:induction false} FirstExists(compile: (string, string) -> Option<Code>, requests: seq<Request>, k: Key)
    ensures NoneCompiles(compile, requests, k) <==> forall i: nat :: !IsFirst(compile, requests, k, i)
  {
    hide KeyOf, Compile;
    if requests != [] {
      var n := |requests| - 1;
      var before := requests[..n];
      assert requests == before + [requests[n]];
      FirstOneMore(compile, before, requests[n], k);
      FirstExists(compile, before, k);
      if NoneCompiles(compile, requests, k) {
        assert forall i :: 0 <= i < |requests| ==> !IsFirst(compile, requests, k, i);
      } else if NoneCompiles(compile, before, k) {
        assert IsFirst(compile, requests, k, n);
      } else {
        var i: nat :| IsFirst(compile, before, k, i);
        assert IsFirst(compile, requests, k, i);
      }
    }
  }

  /** The known code of a key is that of the first request with this key that compiles. */
  lemma {:induction false} AnswersAreFirst(compile: (string, string) -> Option<Code>, requests: seq<Request>, k: Key)
    ensures k in Answers(compile, requests) <==> !NoneCompiles(compile, requests, k)
    ensures forall i: nat :: IsFirst(compile, requests, k, i) ==>
      k in Answers(compile, requests) && Some(Answers(compile, requests)[k]) == Compile(compile, requests[i])
  {
    if requests != [] {
      hide KeyOf, Compile, NoneCompiles, IsFirst, Answers;
      var n := |requests| - 1;
      var before, r := requests[..n], requests[n];
      assert requests == before + [r];
      AnswersAreFirst(compile, before, k);
      AnswersStep(compile, before, r);
      FirstOneMore(compile, before, r, k);
      NoneOneMore(compile, before, r, k);
      FirstExists(compile, before, k);
      forall i: nat | IsFirst(compile, requests, k, i)
        ensures k in Answers(compile, requests) && Some(Answers(compile, requests)[k]) == Compile(compile, requests[i])
      {
        FirstWithin(compile, requests, k, i);
        if i < n { assert before[i] == requests[i]; }
      }
    } else {
      NothingCompiles(compile, k);
    }
  }

  lemma AnswersStep(compile: (string, string) -> Option<Code>, requests: seq<Request>, r: Request)
    ensures Answers(compile, requests + [r]) == Answered(Answers(compile, requests), compile, r)
  {
    assert (requests + [r])[..|requests|] == requests;
  }

  lemma NoneOneMore(compile: (string, string) -> Option<Code>, requests: seq<Request>, r: Request, k: Key)
    ensures NoneCompiles(compile, requests + [r], k)
            <==> NoneCompiles(compile, requests, k) && (KeyOf(r) == k ==> Compile(compile, r).None?)
  {
    hide KeyOf, Compile;
    assert forall j :: 0 <= j < |requests| ==> (requests + [r])[j] == requests[j];
    assert (requests + [r])[|requests|] == r;
  }

  lemma NothingCompiles(compile: (string, string) -> Option<Code>, k: Key)
    ensures NoneCompiles(compile, [], k) && k !in Answers(compile, [])
    ensures forall i: nat :: !IsFirst(compile, [], k, i)
  {
  }

  lemma FirstWithin(compile: (string, string) -> Option<Code>, requests: seq<Request>, k: Key, i: nat)
    requires IsFirst(compile, requests, k, i)
    ensures i < |requests|
  {
  }

  /** Requests with one key compile to one code, as far as the earlier one compiles at all. */
  ghost predicate Agree(compile: (string, string) -> Option<Code>, requests: seq<Request>) {
    forall i, j :: 0 <= i < j < |requests| && KeyOf(requests[i]) == KeyOf(requests[j]) ==>
      Compile(compile, requests[i]).None? || Compile(compile, requests[i]) == Compile(compile, requests[j])
  }

  lemma {:induction false} AnswersGrow(compile: (string, string) -> Option<Code>, requests: seq<Request>, i: nat,
                                       j: nat, k: Key)
    requires i <= j <= |requests| && k in Answers(compile, requests[..i])
    ensures k in Answers(compile, requests[..j])
    ensures Answers(compile, requests[..j])[k] == Answers(compile, requests[..i])[k]
  {
    hide Answers;
    if i < j {
      AnswersGrow(compile, requests, i, j - 1, k);
      AnswerAt(compile, requests, j - 1);
    }
  }

  lemma AnswerAt(compile: (string, string) -> Option<Code>, requests: seq<Request>, i: nat)
    requires i < |requests|
    ensures var known := Answers(compile, requests[..i]);
            && Answers(compile, requests[..i + 1]) == Answered(known, compile, requests[i])
            && Answer(compile, requests, i)
               == if KeyOf(requests[i]) in known then Some(known[KeyOf(requests[i])]) else Compile(compile, requests[i])
  {
    assert requests[..i + 1][..i] == requests[..i];
  }

  /** Every answer is what compiling its request gives, exactly when requests with one key agree. */
  lemma AnswersRight(compile: (string, string) -> Option<Code>, requests: seq<Request>)
    ensures (forall i: nat :: i < |requests| ==> Answer(compile, requests, i) == Compile(compile, requests[i]))
            <==> Agree(compile, requests)
  {
    hide KeyOf, Compile, Answers;
    if Agree(compile, requests) {
      forall i: nat | i < |requests|
        ensures Answer(compile, requests, i) == Compile(compile, requests[i])
      {
        var upTo, k := requests[..i + 1], KeyOf(requests[i]);
        AnswersAreFirst(compile, upTo, k);
        if k in Answers(compile, upTo) {
          FirstExists(compile, upTo, k);
          var f: nat :| IsFirst(compile, upTo, k, f);
          assert upTo[f] == requests[f];
        } else {
          assert upTo[i] == requests[i];
        }
      }
    }
    if forall i: nat :: i < |requests| ==> Answer(compile, requests, i) == Compile(compile, requests[i]) {
      forall i, j | 0 <= i < j < |requests| && KeyOf(requests[i]) == KeyOf(requests[j])
        ensures Compile(compile, requests[i]).None? || Compile(compile, requests[i]) == Compile(compile, requests[j])
      {
        if Answer(compile, requests, i).Some? {
          AnswersGrow(compile, requests, i + 1, j + 1, KeyOf(requests[i]));
          assert Answer(compile, requests, j) == Answer(compile, requests, i);
        }
      }
    }
  }

  lemma KeysClash(requests: seq<Request>) returns (i: nat, j: nat)
    requires !KeysTell(requests)
    ensures i < j < |requests| && KeyOf(requests[i]) == KeyOf(requests[j])
    ensures Strip(requests[i].0) != Strip(requests[j].0) || Strip(requests[i].1) != Strip(requests[j].1)
  {
    hide KeyOf, Strip;
    i, j :| i < |requests| && j < |requests| && KeyOf(requests[i]) == KeyOf(requests[j])
            && (Strip(requests[i].0) != Strip(requests[j].0) || Strip(requests[i].1) != Strip(requests[j].1));
    if i > j { i, j := j, i; }
  }

  /** Whatever the functions do, requests with one key agree exactly when they ask for one function. */
  lemma AgreeAlways(requests: seq<Request>)
    ensures (forall compile: (string, string) -> Option<Code> :: Agree(compile, requests)) <==> KeysTell(requests)
  {
    hide KeyOf, Strip;
    if !KeysTell(requests) {
      var i, j := KeysClash(requests);
      var (text, name) := (Strip(requests[i].0), Strip(requests[i].1));
      var compile := (t: string, n: string) => if t == text && n == name then Some("one") else Some("another");
      assert Compile(compile, requests[i]) == Some("one") && Compile(compile, requests[j]) == Some("another");
      assert !Agree(compile, requests);
    } else {
      forall compile: (string, string) -> Option<Code>
        ensures Agree(compile, requests)
      {
        forall i, j | 0 <= i < j < |requests| && KeyOf(requests[i]) == KeyOf(requests[j])
          ensures Compile(compile, requests[i]) == Compile(compile, requests[j])
        {
        }
      }
    }
  }

  /**
   A trimmed text t and a name s:f have the key of the text t:s and the name f: whenever the first request compiles, the
   second is answered with its function, which is wrong whenever the two compile differently.
   */
  lemma WrongAnswer(compile: (string, string) -> Option<Code>, t: string, s: string, f: string)
    requires Strip(t) == t && Strip(s + ":" + f) == s + ":" + f && Strip(t + ":" + s) == t + ":" + s && Strip(f) == f
    ensures var requests := [(t, s + ":" + f), (t + ":" + s, f)];
            && KeyOf(requests[0]) == KeyOf(requests[1]) == t + ":" + s + ":" + f
            && (compile(t, s + ":" + f).Some? ==>
              && Answer(compile, requests, 1) == compile(t, s + ":" + f)
              && (compile(t + ":" + s, f) != compile(t, s + ":" + f) ==>
                Answer(compile, requests, 1) != Compile(compile, requests[1])))
  {
    hide Strip;
    var requests: seq<Request> := [(t, s + ":" + f), (t + ":" + s, f)];
    assert t + ":" + (s + ":" + f) == t + ":" + s + ":" + f;
    assert requests[..0] == [];
    AnswerAt(compile, requests, 0);
    AnswerAt(compile, requests, 1);
  }

  /** So it is for two texts that differ in the comment on their last line: what follows # is ":a" in the second. */
  lemma WrongAfterComment(compile: (string, string) -> Option<Code>, body: string)
    requires body != "" && !IsSpace(body[0]) && compile(body + "\n#", "a:f").Some?
    ensures var requests := [(body + "\n#", "a:f"), (body + "\n#:a", "f")];
            Answer(compile, requests, 1) == compile(body + "\n#", "a:f")
  {
    Trimmed(body + "\n#");
    Trimmed("a:f");
    Trimmed(body + "\n#:a");
    Trimmed("f");
    hide Strip;
    assert "a" + ":" + "f" == "a:f" && body + "\n#" + ":" + "a" == body + "\n#:a";
    WrongAnswer(compile, body + "\n#", "a", "f");
  }

  lemma Trimmed(s: string)
    requires s != "" && !IsSpace(s[0]) && !IsSpace(s[|s| - 1])
    ensures Strip(s) == s
  {
  }
}
