/** The user's selection criteria: age, budget, gender and the words of the
    free-text interests. The record stores whatever it is given; validating
    the values is the job of whoever collects them from the user. */
module Criteria {
  import opened Text

  /** The default interests, as words. */
  const DefaultInfo: seq<string> :=
    ["I", "am", "looking", "for", "an", "interesting", "sci-fi", "book",
     "to", "read", "for", "leisure", "at", "home"]

  class BookCriteria {
    var age: int
    var maxPrice: real
    var gender: string
    var info: seq<string>

    /** Stores the four values exactly as given. */
    constructor (age: int, maxPrice: real, gender: string, info: seq<string>)
      ensures this.age == age && this.maxPrice == maxPrice
      ensures this.gender == gender && this.info == info
    {
      this.age := age;
      this.maxPrice := maxPrice;
      this.gender := gender;
      this.info := info;
    }

    /** The record built when no argument is supplied. */
    constructor Default()
      ensures age == 18 && maxPrice == 100.0 && gender == "woman" && info == DefaultInfo
    {
      age := 18;
      maxPrice := 100.0;
      gender := "woman";
      info := DefaultInfo;
    }

    method SetAge(newAge: int)
      modifies this`age
      ensures age == newAge
    {
      age := newAge;
    }

    method SetMaxPrice(newMaxPrice: real)
      modifies this`maxPrice
      ensures maxPrice == newMaxPrice
    {
      maxPrice := newMaxPrice;
    }

    method SetGender(newGender: string)
      modifies this`gender
      ensures gender == newGender
    {
      gender := newGender;
    }

    method SetInfo(newInfo: seq<string>)
      modifies this`info
      ensures info == newInfo
    {
      info := newInfo;
    }

    /** The printed form "Age: a, Max Price: p, Gender: g, Info: i".
        `priceText` and `infoText` are the printed forms of the maximum price
        and of the interests (the host language's number and list formatting
        is not modelled); the age is printed in decimal. */
    function ToString(priceText: string, infoText: string): (s: string)
      reads this
      ensures |s| == |"Age: , Max Price: , Gender: , Info: "| + |IntText(age)|
                     + |priceText| + |gender| + |infoText|
    {
      "Age: " + IntText(age) + ", Max Price: " + priceText
        + ", Gender: " + gender + ", Info: " + infoText
    }
  }

  /** The age printed by ToString is the stored age: the text after "Age: "
      and before the next field parses back to it. */
  lemma ToStringShowsAge(c: BookCriteria, priceText: string, infoText: string)
    ensures var s := c.ToString(priceText, infoText);
            var digits := IntText(c.age);
            s[..5] == "Age: " && s[5..5 + |digits|] == digits
            && (digits[0] == '-' || IsAsciiDigit(digits[0])) && ParseInt(digits) == c.age
  {
    var digits := IntText(c.age);
    var rest := ", Max Price: " + priceText + ", Gender: " + c.gender + ", Info: " + infoText;
    assert c.ToString(priceText, infoText) == "Age: " + (digits + rest);
    assert ("Age: " + (digits + rest))[5..5 + |digits|] == (digits + rest)[..|digits|];
    IntTextRoundTrip(c.age);
  }
}
