/** The login record the popup stores and lists. */
module Logins {
  import opened Wrappers

  /**
   * A stored test account. `categories` is optional because records come from
   * uploaded or fetched JSON that is not validated; `None` is a record without
   * a `categories` object.
   */
  datatype Login = Login(
    username: string,
    password: string,
    description: string,
    categories: Option<map<string, string>>)

  /** `login.categories?.[key]` is defined. */
  predicate HasKey(login: Login, key: string) {
    login.categories.Some? && key in login.categories.value
  }

  /** `login.categories?.[key] === value`. */
  predicate HasCategory(login: Login, key: string, value: string) {
    HasKey(login, key) && login.categories.value[key] == value
  }
}
