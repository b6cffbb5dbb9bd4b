/**
 * The `AuditContext` middleware of the infrastructure package: it strips a "Bearer " prefix
 * if there is more after it, validates the token, sets the user context when the token is
 * valid, and always continues. Token validation is a function parameter; the context key is
 * defined in a package that is not part of this model, so it is a parameter too.
 */
module AuditContext {
  import opened Wrappers
  import opened Text
  import opened Gin

  datatype TokenClaims = TokenClaims(username: string, tenantId: int)

  /** The token string: the prefix is removed only from a header longer than "Bearer ". */
  function StripBearer(header: string): (t: string)
    ensures |header| > 7 && StartsWith(header, "Bearer ") ==> "Bearer " + t == header
    ensures !(|header| > 7 && StartsWith(header, "Bearer ")) ==> t == header
  {
    if |header| > 7 && header[..7] == "Bearer " then header[7..] else header
  }

  /**
   * The strip agrees with `strings.TrimPrefix(header, "Bearer ")` except on the header
   * "Bearer " itself, which it leaves whole where `TrimPrefix` gives the empty string.
   */
  lemma StripBearerVersusTrimPrefix(header: string)
    ensures header != "Bearer " ==> StripBearer(header) == TrimPrefix(header, "Bearer ")
    ensures StripBearer("Bearer ") == "Bearer " && TrimPrefix("Bearer ", "Bearer ") == ""
  {
  }

  /** The user context is set exactly when the token is valid; the chain always continues. */
  method SetAuditContext(c: Context, header: string, key: string, validate: string -> Result<TokenClaims, string>)
    modifies c
    ensures c.nextCalled
    ensures validate(StripBearer(header)).Ok? ==>
              var claims := validate(StripBearer(header)).value;
              c.keys == old(c.keys)[key := UserContextValue(claims.username, claims.tenantId)]
    ensures validate(StripBearer(header)).Err? ==> c.keys == old(c.keys)
    ensures c.requestValues == old(c.requestValues) && c.reply == old(c.reply) && c.aborted == old(c.aborted)
  {
    var tokenString := header;
    if |tokenString| > 7 && tokenString[..7] == "Bearer " {
      tokenString := tokenString[7..];
    }
    var claims := validate(tokenString);
    if claims.Ok? {
      c.keys := c.keys[key := UserContextValue(claims.value.username, claims.value.tenantId)];
    }
    c.nextCalled := true;
  }
}
