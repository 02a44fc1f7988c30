/** The refresh-token collection of the auth service: documents
    `{ token, userId }` in the collection's natural order. `findOne` sees the
    first match, `deleteOne` removes the first match, `deleteMany` removes
    every match. */
module RefreshTokens {
  import opened Http
  import opened UserModel

  datatype TokenRecord = TokenRecord(token: string, userId: UserId)

  type Tokens = seq<TokenRecord>

  /** How many sessions (records) user `u` owns. */
  function CountOf(s: Tokens, u: UserId): nat {
    if s == [] then 0
    else (if s[0].userId == u then 1 else 0) + CountOf(s[1..], u)
  }

  /** Some record carries token `t`. */
  predicate HasToken(s: Tokens, t: string) {
    exists i :: 0 <= i < |s| && s[i].token == t
  }

  /** Every token string names one session. */
  predicate UniqueTokens(s: Tokens) {
    forall i, j :: 0 <= i < j < |s| ==> s[i].token != s[j].token
  }

  /** `findOne({ token: t })`: the position of the first record with token `t`. */
  function FindToken(s: Tokens, t: string): (r: Option<nat>)
    ensures r.None? <==> !HasToken(s, t)
    ensures r.Some? ==> r.value < |s| && s[r.value].token == t
    ensures r.Some? ==> forall j :: 0 <= j < r.value ==> s[j].token != t
  {
    if s == [] then None
    else if s[0].token == t then Some(0)
    else
      match FindToken(s[1..], t)
      case None =>
        assert forall i :: 1 <= i < |s| ==> s[i] == s[1..][i - 1];
        None
      case Some(i) => Some(i + 1)
  }

  /** `findByIdAndDelete`: the record at position `i` leaves the collection. */
  function RemoveAt(s: Tokens, i: nat): (r: Tokens)
    requires i < |s|
    ensures |r| == |s| - 1
    ensures forall j :: 0 <= j < i ==> r[j] == s[j]
    ensures forall j :: i <= j < |r| ==> r[j] == s[j + 1]
  {
    s[..i] + s[i + 1..]
  }

  /** `deleteMany({ userId: u })`. */
  function DeleteMany(s: Tokens, u: UserId): (r: Tokens)
    ensures CountOf(r, u) == 0
    ensures forall v :: v != u ==> CountOf(r, v) == CountOf(s, v)
    ensures forall x :: x in r <==> x in s && x.userId != u
  {
    if s == [] then []
    else
      var rest := DeleteMany(s[1..], u);
      assert forall x :: x in s <==> x == s[0] || x in s[1..];
      if s[0].userId == u then rest
      else
        var r := [s[0]] + rest;
        assert r[1..] == rest;
        r
  }

  /** `deleteMany` keeps tokens unique. */
  lemma {:induction false} DeleteManyUnique(s: Tokens, u: UserId)
    requires UniqueTokens(s)
    ensures UniqueTokens(DeleteMany(s, u))
  {
    if s != [] {
      var tail := s[1..];
      assert UniqueTokens(tail) by {
        forall i, j | 0 <= i < j < |tail| ensures tail[i].token != tail[j].token {
          assert tail[i] == s[i + 1] && tail[j] == s[j + 1];
        }
      }
      DeleteManyUnique(tail, u);
      if s[0].userId != u {
        assert !HasToken(tail, s[0].token) by {
          forall j | 0 <= j < |tail| ensures tail[j].token != s[0].token {
            assert tail[j] == s[j + 1];
          }
        }
        DeleteManyKeepsAbsent(tail, u, s[0].token);
        PrependFreshUnique(s[0], DeleteMany(tail, u));
      }
    }
  }

  /** Putting a record with a token not yet present in front keeps tokens unique. */
  lemma PrependFreshUnique(x: TokenRecord, s: Tokens)
    requires UniqueTokens(s) && !HasToken(s, x.token)
    ensures UniqueTokens([x] + s)
  {
    var r := [x] + s;
    forall i, j | 0 <= i < j < |r| ensures r[i].token != r[j].token {
      assert r[j] == s[j - 1];
      if i > 0 { assert r[i] == s[i - 1]; }
    }
  }

  /** `deleteOne({ token: t })`: nothing when no record carries `t`,
      otherwise exactly the first record that does. */
  function DeleteOne(s: Tokens, t: string): (r: Tokens)
    ensures !HasToken(s, t) ==> r == s
    ensures |r| == |s| - (if HasToken(s, t) then 1 else 0)
    ensures HasToken(s, t) ==>
              exists i :: 0 <= i < |s| && s[i].token == t && (forall j :: 0 <= j < i ==> s[j].token != t)
                          && r == RemoveAt(s, i)
  {
    match FindToken(s, t)
    case None => s
    case Some(i) => RemoveAt(s, i)
  }

  /** Sessions add up over a concatenation. */
  lemma {:induction false} CountConcat(a: Tokens, b: Tokens, u: UserId)
    ensures CountOf(a + b, u) == CountOf(a, u) + CountOf(b, u)
  {
    if a == [] {
      assert a + b == b;
    } else {
      assert (a + b)[1..] == a[1..] + b;
      CountConcat(a[1..], b, u);
    }
  }

  /** Appending one record adds one session to its owner and none to anyone else. */
  lemma CountAppend(s: Tokens, x: TokenRecord, u: UserId)
    ensures CountOf(s + [x], u) == CountOf(s, u) + (if x.userId == u then 1 else 0)
  {
    CountConcat(s, [x], u);
    assert [x][1..] == [];
  }

  /** Removing one record takes one session from its owner and none from anyone else. */
  lemma CountRemoveAt(s: Tokens, i: nat, u: UserId)
    requires i < |s|
    ensures CountOf(RemoveAt(s, i), u) == CountOf(s, u) - (if s[i].userId == u then 1 else 0)
  {
    assert s == s[..i] + ([s[i]] + s[i + 1..]);
    CountConcat(s[..i], [s[i]] + s[i + 1..], u);
    CountConcat([s[i]], s[i + 1..], u);
    CountConcat(s[..i], s[i + 1..], u);
    assert [s[i]][1..] == [];
  }

  /** With unique tokens, removing the record that carries `t` leaves no
      record carrying `t`, and no duplicate appears. */
  lemma RemoveAtUnique(s: Tokens, i: nat)
    requires UniqueTokens(s) && i < |s|
    ensures !HasToken(RemoveAt(s, i), s[i].token)
    ensures UniqueTokens(RemoveAt(s, i))
  {
    var r := RemoveAt(s, i);
    forall j | 0 <= j < |r| ensures r[j].token != s[i].token {
      if j >= i { assert r[j] == s[j + 1]; }
    }
    forall a, b | 0 <= a < b < |r| ensures r[a].token != r[b].token {
      var a' := if a < i then a else a + 1;
      var b' := if b < i then b else b + 1;
      assert r[a] == s[a'] && r[b] == s[b'];
    }
  }

  /** A token present in a sub-collection was present before. */
  lemma RemoveAtKeepsAbsent(s: Tokens, i: nat, t: string)
    requires i < |s| && !HasToken(s, t)
    ensures !HasToken(RemoveAt(s, i), t)
  {
    var r := RemoveAt(s, i);
    forall j | 0 <= j < |r| ensures r[j].token != t {
      if j >= i { assert r[j] == s[j + 1]; }
    }
  }

  /** Appending a record with a token not yet present keeps tokens unique. */
  lemma AppendFreshUnique(s: Tokens, x: TokenRecord)
    requires UniqueTokens(s) && !HasToken(s, x.token)
    ensures UniqueTokens(s + [x])
    ensures HasToken(s + [x], x.token)
  {
    var r := s + [x];
    assert r[|s|] == x;
  }

  /** `deleteMany` never introduces a token. */
  lemma DeleteManyKeepsAbsent(s: Tokens, u: UserId, t: string)
    requires !HasToken(s, t)
    ensures !HasToken(DeleteMany(s, u), t)
  {
    var r := DeleteMany(s, u);
    forall j | 0 <= j < |r| ensures r[j].token != t {
      assert r[j] in r;
      var k :| 0 <= k < |s| && s[k] == r[j];
    }
  }

  /** On unique tokens, `deleteOne` leaves no record carrying `t` and keeps
      tokens unique. */
  lemma DeleteOneAtMostOne(s: Tokens, t: string)
    requires UniqueTokens(s)
    ensures !HasToken(DeleteOne(s, t), t) && UniqueTokens(DeleteOne(s, t))
  {
    if HasToken(s, t) {
      var i :| 0 <= i < |s| && s[i].token == t && DeleteOne(s, t) == RemoveAt(s, i);
      RemoveAtUnique(s, i);
    }
  }

  /** After appending a record with a fresh token, `findOne` on that token
      finds the appended record. */
  lemma FindAppendedFresh(s: Tokens, x: TokenRecord)
    requires !HasToken(s, x.token)
    ensures FindToken(s + [x], x.token) == Some(|s|)
  {
    var r := s + [x];
    assert r[|s|] == x;
    assert forall k :: 0 <= k < |s| ==> r[k] == s[k];
  }
}
