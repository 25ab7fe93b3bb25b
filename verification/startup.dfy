/**
 One execution of `Main.main` after the configuration is read: the stored
 password is passed through `encrypt`, written back, and decrypted again
 for the connection; then the loading run starts.
 */
module Startup {
  import opened Wrappers
  import opened PasswordEncryptor
  import opened Loader

  /** What an execution leaves behind: the password written to the configuration, and the run. */
  datatype Session = Session(storedPassword: string, run: Run)

  /**
   Main.java lines 41-45 followed by the run. None stands for the decrypt
   of line 43 throwing, which would leave `main` before its `try`.
   */
  function Execute(c: Crypto, configured: string, env: Env): Option<Session> {
    var stored := Encrypt(c, configured);
    match Decrypt(c, stored)
    case None => None
    case Some(password) => Some(Session(stored, LoadRun(env, password)))
  }

  /**
   The decrypt of line 43 never throws: every execution reaches the run,
   and what it stores is `encrypt` of the configured value.
   */
  lemma ExecutionStarts(c: Crypto, configured: string, env: Env)
    requires SealOpens(c)
    ensures Execute(c, configured, env).Some?
    ensures Execute(c, configured, env).value.storedPassword == Encrypt(c, configured)
  {
    EncryptedDecrypts(c, configured);
  }

  /**
   A plaintext password is stored as something else that decrypts back to
   it, and that plaintext is what the database receives.
   */
  lemma PlaintextIsProtected(c: Crypto, configured: string, env: Env)
    requires SealOpens(c) && Recovers(c, configured) && Decrypt(c, configured).None?
    ensures var s := Execute(c, configured, env);
      && s.Some?
      && s.value.storedPassword != configured
      && Decrypt(c, s.value.storedPassword) == Some(configured)
      && s.value.run == LoadRun(env, configured)
  {
    EncryptRoundTrip(c, configured);
  }

  /**
   A stored value that already decrypts is kept as is, and its decryption is
   what the database receives.
   */
  lemma CiphertextIsKept(c: Crypto, configured: string, env: Env)
    requires Decrypt(c, configured).Some?
    ensures Execute(c, configured, env) ==
      Some(Session(configured, LoadRun(env, Decrypt(c, configured).value)))
  {
  }

  /**
   A second execution on the value the first one stored leaves it unchanged
   and connects with the same password, whatever else differs between runs.
   */
  lemma StoredPasswordIsStable(c: Crypto, configured: string, env: Env, next: Env)
    requires SealOpens(c)
    ensures var first := Execute(c, configured, env);
      first.Some? &&
      var second := Execute(c, first.value.storedPassword, next);
      && second.Some?
      && second.value.storedPassword == first.value.storedPassword
      && Decrypt(c, second.value.storedPassword) == Decrypt(c, first.value.storedPassword)
  {
    EncryptedDecrypts(c, configured);
    EncryptIdempotent(c, configured);
    EncryptedDecrypts(c, Encrypt(c, configured));
  }
}
