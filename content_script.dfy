/**
 * The content script injected into web pages: a once-only listener
 * registration guarded by a page-global flag, and the `autofill` command that
 * fills the username and password inputs and may click the submit button.
 * The page is abstracted to the three elements the script queries.
 */
module ContentScript {

  /** An `<input>` the script may fill; `inputEvents` counts the synthetic `input` events dispatched on it. */
  class Input {
    var value: string
    var inputEvents: nat

    constructor (value: string)
      ensures this.value == value && inputEvents == 0
    {
      this.value, inputEvents := value, 0;
    }
  }

  /** A `type='submit'` button; `clicks` counts programmatic clicks. */
  class Button {
    var clicks: nat

    constructor ()
      ensures clicks == 0
    {
      clicks := 0;
    }
  }

  /** An "autofill" message, sent by an extension context that is not part of this model. */
  datatype Message = Message(command: string, username: string, password: string, useAutoLogin: bool)

  /** `fillOutField`: set the input's value, then dispatch a bubbling `input` event on it. */
  method FillOutField(input: Input, value: string)
    modifies input
    ensures input.value == value && input.inputEvents == old(input.inputEvents) + 1
  {
    input.value := value;
    input.inputEvents := input.inputEvents + 1;
  }

  /**
   * A page (its `window`): the results of the three selectors the script uses,
   * `null` where no element matches, and the script's own global state.
   */
  class Page {
    const usernameInput: Input?
    const passwordInput: Input?
    const submitButton: Button?
    var hasRegistered: bool
    var listeners: nat

    /** Two different selectors match two different elements; one listener exactly when the flag is set. */
    ghost predicate Valid()
      reads this
    {
      && (usernameInput != null && passwordInput != null ==> usernameInput != passwordInput)
      && listeners == if hasRegistered then 1 else 0
    }

    /** The page's elements the script may change. */
    ghost function Elements(): set<object> {
      (if usernameInput != null then {usernameInput} else {}) +
      (if passwordInput != null then {passwordInput} else {}) +
      (if submitButton != null then {submitButton} else {})
    }

    /** A freshly loaded page, before the script has run. */
    constructor (usernameInput: Input?, passwordInput: Input?, submitButton: Button?)
      requires usernameInput != null && passwordInput != null ==> usernameInput != passwordInput
      ensures Valid() && !hasRegistered && listeners == 0
      ensures this.usernameInput == usernameInput && this.passwordInput == passwordInput
      ensures this.submitButton == submitButton
    {
      this.usernameInput, this.passwordInput, this.submitButton := usernameInput, passwordInput, submitButton;
      hasRegistered, listeners := false, 0;
    }

    /**
     * One execution of the script in this page: returns at once if the flag is
     * set, otherwise adds the message listener and sets the flag. However often
     * it runs, the page ends with exactly one listener.
     */
    method RunScript()
      requires Valid()
      modifies this
      ensures Valid() && hasRegistered && listeners == 1
      ensures old(hasRegistered) ==> listeners == old(listeners)
    {
      if hasRegistered {
        return;
      }
      listeners := listeners + 1;
      hasRegistered := true;
    }

    /** `attemptAutoFill`: fill the inputs that exist, then click submit when asked to and a submit button exists. */
    method AttemptAutoFill(username: string, password: string, autoLogin: bool)
      requires Valid()
      modifies Elements()
      ensures usernameInput != null ==>
        usernameInput.value == username && usernameInput.inputEvents == old(usernameInput.inputEvents) + 1
      ensures passwordInput != null ==>
        passwordInput.value == password && passwordInput.inputEvents == old(passwordInput.inputEvents) + 1
      ensures submitButton != null ==>
        submitButton.clicks == old(submitButton.clicks) + (if autoLogin then 1 else 0)
    {
      if usernameInput != null {
        FillOutField(usernameInput, username);
      }
      if passwordInput != null {
        FillOutField(passwordInput, password);
      }
      if autoLogin {
        if submitButton != null {
          submitButton.clicks := submitButton.clicks + 1;
        }
      }
    }

    /** The registered listener: only the `autofill` command acts. */
    method OnMessage(message: Message)
      requires Valid()
      modifies Elements()
      ensures message.command != "autofill" ==> unchanged(Elements())
      ensures message.command == "autofill" && usernameInput != null ==>
        usernameInput.value == message.username && usernameInput.inputEvents == old(usernameInput.inputEvents) + 1
      ensures message.command == "autofill" && passwordInput != null ==>
        passwordInput.value == message.password && passwordInput.inputEvents == old(passwordInput.inputEvents) + 1
      ensures message.command == "autofill" && submitButton != null ==>
        submitButton.clicks == old(submitButton.clicks) + (if message.useAutoLogin then 1 else 0)
    {
      if message.command == "autofill" {
        AttemptAutoFill(message.username, message.password, message.useAutoLogin);
      }
    }

    /** A message sent to this page reaches the listener only if the script has registered it. */
    method Deliver(message: Message)
      requires Valid()
      modifies Elements()
      ensures !hasRegistered || message.command != "autofill" ==> unchanged(Elements())
      ensures hasRegistered && message.command == "autofill" && usernameInput != null ==>
        usernameInput.value == message.username && usernameInput.inputEvents == old(usernameInput.inputEvents) + 1
      ensures hasRegistered && message.command == "autofill" && passwordInput != null ==>
        passwordInput.value == message.password && passwordInput.inputEvents == old(passwordInput.inputEvents) + 1
      ensures submitButton != null ==>
        submitButton.clicks == old(submitButton.clicks) +
          (if hasRegistered && message.command == "autofill" && message.useAutoLogin then 1 else 0)
    {
      if hasRegistered {
        OnMessage(message);
      }
    }
  }

  /**
   * A page with a username input and a submit button but no password input:
   * the username is filled, nothing fails, and auto-login clicks submit.
   * Without a submit button nothing is clicked.
   */
  method ScenarioNoPasswordField() {
    var user := new Input("");
    var button := new Button();
    var page := new Page(user, null, button);
    page.RunScript();
    page.RunScript();
    assert page.listeners == 1;
    page.Deliver(Message("autofill", "a@x.com", "secret", true));
    assert user.value == "a@x.com" && user.inputEvents == 1;
    assert button.clicks == 1;
    page.Deliver(Message("copy", "b@x.com", "other", true));
    assert user.value == "a@x.com" && button.clicks == 1;

    var other := new Input("kept");
    FillOutField(user, "c@x.com");
    assert other.value == "kept" && user.value == "c@x.com";

    var alone := new Input("");
    var bare := new Page(alone, null, null);
    bare.RunScript();
    bare.Deliver(Message("autofill", "a@x.com", "secret", true));
    assert alone.value == "a@x.com";
  }
}
