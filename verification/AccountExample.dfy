/** A run that spends an address's whole sign-in budget at time 0, for the counterexamples. */
module AccountExample {
  import opened Common
  import opened AccountModel

  function Three(email: string, rest: seq<Op>): seq<Op> {
    [RequestLogin(email, 1, 0)] + ([RequestLogin(email, 2, 0)] + ([RequestLogin(email, 3, 0)] + rest))
  }

  function ThreeTokens(c: Config, email: string): map<Hash, Token> {
    var spent := Token(email, 0, c.ttl, Some(0));
    map[1 := spent, 2 := spent, 3 := spent.(consumedAt := None)]
  }

  function OneToken(c: Config, email: string): map<Hash, Token> {
    map[1 := Token(email, 0, c.ttl, None)]
  }

  function TwoTokens(c: Config, email: string): map<Hash, Token> {
    map[1 := Token(email, 0, c.ttl, Some(0)), 2 := Token(email, 0, c.ttl, None)]
  }

  lemma TokensMinted(c: Config, email: string)
    ensures
      var unspent := Token(email, 0, c.ttl, None);
      && Invalidated(EMPTY.tokens, email, 0)[1 := unspent] == OneToken(c, email)
      && Invalidated(OneToken(c, email), email, 0)[2 := unspent] == TwoTokens(c, email)
      && Invalidated(TwoTokens(c, email), email, 0)[3 := unspent] == ThreeTokens(c, email)
  {
  }

  lemma AtMostTwo(tokens: map<Hash, Token>, email: string, since: int, keys: set<Hash>)
    requires tokens.Keys == keys && |keys| <= 2
    ensures |RecentTokens(tokens, email, since)| < LOGIN_BUDGET
  {
    var recent := RecentTokens(tokens, email, since);
    assert recent <= keys;
    assert keys == recent + (keys - recent);
  }
}
