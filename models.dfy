/** The data records the core passes around: the registration identity (a mutable bean whose
    email the registration routine rewrites) and the form record a CSV row is mapped to. */
module Models {

  /** models/FormData.java: eleven string fields set once by the constructor. */
  datatype FormData = FormData(
    name: string,
    email: string,
    password: string,
    company: string,
    website: string,
    country: string,
    city: string,
    address1: string,
    address2: string,
    state: string,
    zipCode: string)

  /** A snapshot of a User's fields. */
  datatype UserData = UserData(
    firstName: string,
    lastName: string,
    email: string,
    telephone: string,
    password: string)

  /** models/User.java: the identity sent to the registration endpoint. Only `email` has a
      setter that the core calls. */
  class User {
    var firstName: string
    var lastName: string
    var email: string
    var telephone: string
    var password: string

    constructor (firstName: string, lastName: string, email: string, telephone: string, password: string)
      ensures Data() == UserData(firstName, lastName, email, telephone, password)
    {
      this.firstName := firstName;
      this.lastName := lastName;
      this.email := email;
      this.telephone := telephone;
      this.password := password;
    }

    /** The current field values. */
    function Data(): UserData
      reads this
    {
      UserData(firstName, lastName, email, telephone, password)
    }

    /** `setEmail`: replaces the email and nothing else. */
    method SetEmail(newEmail: string)
      modifies this
      ensures Data() == old(Data()).(email := newEmail)
    {
      email := newEmail;
    }
  }
}
